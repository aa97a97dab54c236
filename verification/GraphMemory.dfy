/**
 `TemporalGraphMemory` of `memory/graph_memory.py`. Saving the graph after each call is not part of
 this model.
 */
module GraphMemory {
  import opened Wrappers
  import opened GraphModel

  lemma {:induction false} RelatedInPlace(edges: seq<Edge>, at: nat, source: string, target: string, relation: string,
                                          props: Props, now: string)
    requires at < |edges| && Matches(edges[at], source, relation)
    requires forall i :: 0 <= i < at ==> !Matches(edges[i], source, relation)
    ensures Related(edges, source, target, relation, props, now) == edges[at := Touched(edges[at], props, now)]
  {
    if at > 0 {
      assert forall i :: 0 <= i < at - 1 ==> edges[1..][i] == edges[i + 1];
      RelatedInPlace(edges[1..], at - 1, source, target, relation, props, now);
    }
  }

  lemma {:induction false} RelatedAtEnd(edges: seq<Edge>, source: string, target: string, relation: string,
                                        props: Props, now: string)
    requires forall i :: 0 <= i < |edges| ==> !Matches(edges[i], source, relation)
    ensures Related(edges, source, target, relation, props, now)
         == edges + [Edge(source, target, relation, now, now, props)]
  {
    if edges == [] {
    } else {
      assert forall i :: 0 <= i < |edges[1..]| ==> edges[1..][i] == edges[i + 1];
      RelatedAtEnd(edges[1..], source, target, relation, props, now);
    }
  }

  /** The loop over the new properties that collects those that differ. */
  method TrackChanges(current: Props, props: Props) returns (changed: map<string, Change>)
    ensures changed == Changes(current, props)
  {
    changed := map[];
    var left := props.Keys;
    while left != {}
      invariant left <= props.Keys
      invariant forall k :: k in changed <==> k in props && k !in left && Get(current, k) != props[k]
      invariant forall k :: k in changed ==> changed[k] == Change(Get(current, k), props[k])
      decreases |left|
    {
      var k :| k in left;
      left := left - {k};
      if Get(current, k) != props[k] {
        changed := changed[k := Change(Get(current, k), props[k])];
      }
    }
  }

  class TemporalGraphMemory {
    var nodes: map<string, Entity>
    var edges: seq<Edge>
    const idOf: IdOf

    ghost function Model(): Graph
      reads this
    {
      Graph(nodes, edges)
    }

    constructor (idOf: IdOf)
      ensures Model() == EMPTY && this.idOf == idOf
    {
      this.idOf := idOf;
      nodes, edges := map[], [];
    }

    method AddEntity(name: string, kind: string, props: Props, now: string) returns (id: string)
      modifies this`nodes
      ensures Model() == GraphModel.AddEntity(old(Model()), idOf, name, kind, props, now)
      ensures id == idOf(name)
    {
      id := idOf(name);
      if id in nodes {
        var existing := nodes[id];
        var history := existing.history;
        var changed := TrackChanges(existing.props, props);
        if changed != map[] {
          history := history + [Entry(changed, now)];
        }
        nodes := nodes[id := Entity(name, kind, existing.props + props, existing.createdAt, now, history)];
      } else {
        nodes := nodes[id := Entity(name, kind, props, now, now, [])];
      }
    }

    method EnsureNode(name: string, now: string)
      modifies this`nodes
      ensures Model() == Ensured(old(Model()), idOf, name, now)
    {
      if idOf(name) !in nodes {
        var _ := AddEntity(name, "Concept", map[], now);
      }
    }

    method AddRelationship(source: string, target: string, relation: string, props: Props,
                           sourceAt: string, targetAt: string, now: string)
      modifies this
      ensures Model() == Step(old(Model()), idOf, Relate(source, target, relation, props, sourceAt, targetAt, now))
    {
      var sourceId, targetId := idOf(source), idOf(target);
      EnsureNode(source, sourceAt);
      EnsureNode(target, targetAt);
      ghost var was := edges;
      var at := 0;
      var found := false;
      while at < |edges|
        invariant at <= |edges| && edges == was && !found
        invariant nodes
          == Step(old(Model()), idOf, Relate(source, target, relation, props, sourceAt, targetAt, now)).nodes
        invariant forall i :: 0 <= i < at ==> !Matches(edges[i], sourceId, relation)
      {
        if Matches(edges[at], sourceId, relation) {
          RelatedInPlace(edges, at, sourceId, targetId, relation, props, now);
          var data := edges[at].(updatedAt := now);
          if props != map[] {
            data := data.(props := data.props + props);
          }
          assert edges[at].props + map[] == edges[at].props;
          edges := edges[at := data];
          found := true;
          break;
        }
        at := at + 1;
      }
      if !found {
        RelatedAtEnd(edges, sourceId, targetId, relation, props, now);
        edges := edges + [Edge(sourceId, targetId, relation, now, now, props)];
      }
    }

    method GetTemporalHistory(name: string) returns (history: Option<seq<Entry>>)
      ensures history == if idOf(name) in nodes then Some(nodes[idOf(name)].history) else None
    {
      if idOf(name) !in nodes {
        return None;
      }
      history := Some(nodes[idOf(name)].history);
    }
  }
}
