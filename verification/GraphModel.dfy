/**
 Entities, their property history and their relationships in `memory/graph_memory.py`, as values.
 The node id of a name (lower case, blanks to underscores) is a function parameter; time stamps are
 inputs. The graph starts empty: reading a stored one is not part of this model.
 */
module GraphModel {
  import opened Wrappers
  import opened Sequences

  datatype Value = Null | Data(text: string)

  type Props = map<string, Value>

  datatype Change = Change(before: Value, after: Value)

  datatype Entry = Entry(changes: map<string, Change>, timestamp: string)

  datatype Entity = Entity(name: string, kind: string, props: Props, createdAt: string, updatedAt: string,
                           history: seq<Entry>)

  datatype Edge = Edge(source: string, target: string, relation: string, createdAt: string, updatedAt: string,
                       props: Props)

  datatype Graph = Graph(nodes: map<string, Entity>, edges: seq<Edge>)

  type IdOf = string -> string

  // ---- Entities ----

  /** Python's `props.get(key)`. */
  function Get(props: Props, key: string): Value {
    if key in props then props[key] else Null
  }

  function Changes(current: Props, given: Props): map<string, Change> {
    map k | k in given && Get(current, k) != given[k] :: Change(Get(current, k), given[k])
  }

  function Logged(history: seq<Entry>, changes: map<string, Change>, now: string): seq<Entry> {
    if changes == map[] then history else history + [Entry(changes, now)]
  }

  function Updated(e: Entity, name: string, kind: string, props: Props, now: string): Entity {
    Entity(name, kind, e.props + props, e.createdAt, now, Logged(e.history, Changes(e.props, props), now))
  }

  function AddEntity(g: Graph, idOf: IdOf, name: string, kind: string, props: Props, now: string): Graph {
    var id := idOf(name);
    var e := if id in g.nodes then Updated(g.nodes[id], name, kind, props, now)
             else Entity(name, kind, props, now, now, []);
    g.(nodes := g.nodes[id := e])
  }

  function Ensured(g: Graph, idOf: IdOf, name: string, now: string): Graph {
    if idOf(name) in g.nodes then g else AddEntity(g, idOf, name, "Concept", map[], now)
  }

  // ---- Relationships ----

  predicate Matches(e: Edge, source: string, relation: string) {
    e.source == source && e.relation == relation
  }

  function Touched(e: Edge, props: Props, now: string): Edge {
    e.(updatedAt := now, props := e.props + props)
  }

  /**
   The first edge of the source with that relation is refreshed, whatever its target; without one, an
   edge is added.
   */
  function Related(edges: seq<Edge>, source: string, target: string, relation: string, props: Props,
                   now: string): seq<Edge> {
    if edges == [] then [Edge(source, target, relation, now, now, props)]
    else if Matches(edges[0], source, relation) then [Touched(edges[0], props, now)] + edges[1..]
    else [edges[0]] + Related(edges[1..], source, target, relation, props, now)
  }

  datatype Op =
    | Describe(name: string, kind: string, props: Props, now: string)
    | Relate(source: string, target: string, relation: string, props: Props, sourceAt: string, targetAt: string,
             now: string)

  function Step(g: Graph, idOf: IdOf, op: Op): Graph {
    match op
    case Describe(name, kind, props, now) => AddEntity(g, idOf, name, kind, props, now)
    case Relate(source, target, relation, props, sourceAt, targetAt, now) =>
      var g' := Ensured(Ensured(g, idOf, source, sourceAt), idOf, target, targetAt);
      g'.(edges := Related(g'.edges, idOf(source), idOf(target), relation, props, now))
  }

  const EMPTY := Graph(map[], [])

  function Run(idOf: IdOf, ops: seq<Op>): Graph {
    if ops == [] then EMPTY else Step(Run(idOf, ops[..|ops| - 1]), idOf, ops[|ops| - 1])
  }

  // ---- History explains the properties ----

  /** Equal for every reader that takes a missing property for `None`. */
  ghost predicate Same(p: Props, q: Props) {
    forall k :: Get(p, k) == Get(q, k)
  }

  function After(changes: map<string, Change>): Props {
    map k | k in changes :: changes[k].after
  }

  function Before(changes: map<string, Change>): Props {
    map k | k in changes :: changes[k].before
  }

  /** The new values of the entries over `p`, oldest first. */
  function Replay(p: Props, history: seq<Entry>): Props {
    if history == [] then p else Replay(p, history[..|history| - 1]) + After(history[|history| - 1].changes)
  }

  /** The old values of the entries over `p`, newest first. */
  function Undo(p: Props, history: seq<Entry>): Props
    decreases |history|
  {
    if history == [] then p else Undo(p + Before(history[|history| - 1].changes), history[..|history| - 1])
  }

  ghost predicate Explains(p: Props, history: seq<Entry>, q: Props) {
    Same(Replay(p, history), q) && Same(Undo(q, history), p)
  }

  lemma {:induction false} UndoSame(p: Props, q: Props, history: seq<Entry>)
    requires Same(p, q)
    ensures Same(Undo(p, history), Undo(q, history))
    decreases |history|
  {
    if history == [] {
    } else {
      var before := Before(history[|history| - 1].changes);
      assert forall k :: Get(p + before, k) == if k in before then before[k] else Get(p, k);
      assert forall k :: Get(q + before, k) == if k in before then before[k] else Get(q, k);
      UndoSame(p + before, q + before, history[..|history| - 1]);
    }
  }

  lemma ChangesReplay(r: Props, p: Props, props: Props)
    requires Same(r, p)
    ensures Same(r + After(Changes(p, props)), p + props)
  {
    var changes := Changes(p, props);
    forall k
      ensures Get(r + After(changes), k) == Get(p + props, k)
    {
      assert Get(r, k) == Get(p, k);
      assert k in After(changes) <==> k in changes;
    }
  }

  lemma NothingChanged(p: Props, props: Props)
    requires Changes(p, props) == map[]
    ensures Same(p + props, p)
  {
    forall k
      ensures Get(p + props, k) == Get(p, k)
    {
      assert k !in Changes(p, props);
    }
  }

  /** One more update, one more entry at most. */
  lemma UpdateExplained(p: Props, history: seq<Entry>, q: Props, props: Props, now: string)
    requires Explains(p, history, q)
    ensures Explains(p, Logged(history, Changes(q, props), now), q + props)
  {
    var changes := Changes(q, props);
    if changes == map[] {
      NothingChanged(q, props);
      UndoSame(q + props, q, history);
    } else {
      var longer := history + [Entry(changes, now)];
      assert longer[..|longer| - 1] == history;
      ChangesReplay(Replay(p, history), q, props);
      UndoSame((q + props) + Before(changes), q, history);
    }
  }

  /** From `d` to `e` the entity lived on: its history grew, and the new part explains the change of its properties. */
  ghost predicate LivedOn(d: Entity, e: Entity) {
    && d.history <= e.history && d.createdAt == e.createdAt
    && Explains(d.props, e.history[|d.history|..], e.props)
  }

  lemma UpdateLivesOn(d: Entity, e: Entity, name: string, kind: string, props: Props, now: string)
    requires LivedOn(d, e)
    ensures LivedOn(d, Updated(e, name, kind, props, now))
  {
    var u := Updated(e, name, kind, props, now);
    var n := |d.history|;
    UpdateExplained(d.props, e.history[n..], e.props, props, now);
    assert u.history[n..] == Logged(e.history[n..], Changes(e.props, props), now);
  }

  /** Whatever lived keeps living, through any one operation on the graph. */
  lemma StepLivesOn(g: Graph, idOf: IdOf, op: Op, id: string, d: Entity)
    requires id in g.nodes && LivedOn(d, g.nodes[id])
    ensures var g' := Step(g, idOf, op); id in g'.nodes && LivedOn(d, g'.nodes[id])
  {
    if op.Describe? && idOf(op.name) == id {
      UpdateLivesOn(d, g.nodes[id], op.name, op.kind, op.props, op.now);
    }
  }

  /** The entity of `id` after the first `n` operations, if there is one. */
  function EntityAt(idOf: IdOf, ops: seq<Op>, n: nat, id: string): Option<Entity>
    requires n <= |ops|
  {
    var g := Run(idOf, ops[..n]);
    if id in g.nodes then Some(g.nodes[id]) else None
  }

  ghost predicate LivedOnAt(d: Entity, e: Option<Entity>) {
    e.Some? && LivedOn(d, e.value)
  }

  lemma LivesOneMore(idOf: IdOf, ops: seq<Op>, n: nat, id: string, d: Entity)
    requires 0 < n <= |ops| && LivedOnAt(d, EntityAt(idOf, ops, n - 1, id))
    ensures LivedOnAt(d, EntityAt(idOf, ops, n, id))
  {
    assert ops[..n][..n - 1] == ops[..n - 1];
    StepLivesOn(Run(idOf, ops[..n - 1]), idOf, ops[n - 1], id, d);
  }

  /**
   The properties an entity had after the first `m` operations can be rebuilt from those it has
   after `n`, and the other way round, by the entries recorded in between.
   */
  lemma {:induction false} HistoryIsReversible(idOf: IdOf, ops: seq<Op>, m: nat, n: nat, id: string)
    requires m <= n <= |ops| && EntityAt(idOf, ops, m, id).Some?
    ensures LivedOnAt(EntityAt(idOf, ops, m, id).value, EntityAt(idOf, ops, n, id))
    decreases n
  {
    var d := EntityAt(idOf, ops, m, id).value;
    if m < n {
      HistoryIsReversible(idOf, ops, m, n - 1, id);
      LivesOneMore(idOf, ops, n, id, d);
    }
  }

  /** A new entity has the properties of the operation that made it, and no history. */
  lemma Newborn(idOf: IdOf, ops: seq<Op>, m: nat, id: string)
    requires m < |ops| && EntityAt(idOf, ops, m, id).None? && EntityAt(idOf, ops, m + 1, id).Some?
    ensures var e := EntityAt(idOf, ops, m + 1, id).value;
            e.history == [] && e.props == if ops[m].Describe? then ops[m].props else map[]
  {
    assert ops[..m + 1][..m] == ops[..m];
  }

  /** So the whole history leads from the properties given at creation to the current ones and back. */
  lemma HistoryExplainsAll(idOf: IdOf, ops: seq<Op>, m: nat, n: nat, id: string)
    requires m < n <= |ops| && EntityAt(idOf, ops, m, id).None? && EntityAt(idOf, ops, m + 1, id).Some?
    ensures EntityAt(idOf, ops, n, id).Some?
    ensures var e := EntityAt(idOf, ops, n, id).value;
            Explains(if ops[m].Describe? then ops[m].props else map[], e.history, e.props)
  {
    Newborn(idOf, ops, m, id);
    HistoryIsReversible(idOf, ops, m + 1, n, id);
    var e := EntityAt(idOf, ops, n, id).value;
    assert e.history[0..] == e.history;
  }

  /** Every entry records at least one change, and every change a difference. */
  ghost predicate Genuine(history: seq<Entry>) {
    forall i :: 0 <= i < |history| ==> Differs(history[i].changes)
  }

  ghost predicate Differs(changes: map<string, Change>) {
    changes != map[] && forall k :: k in changes ==> changes[k].before != changes[k].after
  }

  ghost predicate AllGenuine(g: Graph) {
    forall id :: id in g.nodes ==> Genuine(g.nodes[id].history)
  }

  lemma AddKeepsGenuine(g: Graph, idOf: IdOf, name: string, kind: string, props: Props, now: string)
    requires AllGenuine(g)
    ensures AllGenuine(AddEntity(g, idOf, name, kind, props, now))
  {
    var id := idOf(name);
    if id in g.nodes {
      assert Genuine(g.nodes[id].history);
      assert Genuine(Logged(g.nodes[id].history, Changes(g.nodes[id].props, props), now));
    }
  }

  lemma {:induction false} AlwaysGenuine(idOf: IdOf, ops: seq<Op>)
    ensures AllGenuine(Run(idOf, ops))
  {
    if ops == [] {
    } else {
      var g, op := Run(idOf, ops[..|ops| - 1]), ops[|ops| - 1];
      AlwaysGenuine(idOf, ops[..|ops| - 1]);
      match op {
        case Describe(name, kind, props, now) => AddKeepsGenuine(g, idOf, name, kind, props, now);
        case Relate(source, target, _, _, sourceAt, targetAt, _) =>
          AddKeepsGenuine(g, idOf, source, "Concept", map[], sourceAt);
          AddKeepsGenuine(Ensured(g, idOf, source, sourceAt), idOf, target, "Concept", map[], targetAt);
      }
    }
  }

  // ---- At most one relationship of a kind leaves an entity ----

  function Keys(edges: seq<Edge>): (keys: seq<(string, string)>)
    ensures |keys| == |edges| && forall i :: 0 <= i < |keys| ==> keys[i] == (edges[i].source, edges[i].relation)
  {
    if edges == [] then [] else [(edges[0].source, edges[0].relation)] + Keys(edges[1..])
  }

  ghost predicate OnePerRelation(edges: seq<Edge>) {
    NoDup(Keys(edges))
  }

  function Lookup(edges: seq<Edge>, source: string, relation: string): Option<Edge> {
    if edges == [] then None
    else if Matches(edges[0], source, relation) then Some(edges[0])
    else Lookup(edges[1..], source, relation)
  }

  lemma {:induction false} LookupIsKey(edges: seq<Edge>, source: string, relation: string)
    ensures Lookup(edges, source, relation).Some? <==> (source, relation) in Keys(edges)
    ensures Lookup(edges, source, relation).Some? ==> Matches(Lookup(edges, source, relation).value, source, relation)
  {
    if edges == [] {
    } else {
      LookupIsKey(edges[1..], source, relation);
    }
  }

  lemma {:induction false} RelatedKeys(edges: seq<Edge>, source: string, target: string, relation: string,
                                      props: Props, now: string)
    ensures Keys(Related(edges, source, target, relation, props, now))
         == Keys(edges) + if Lookup(edges, source, relation).Some? then [] else [(source, relation)]
  {
    if edges == [] {
      assert Related(edges, source, target, relation, props, now)[1..] == [];
    } else if Matches(edges[0], source, relation) {
      assert ([Touched(edges[0], props, now)] + edges[1..])[1..] == edges[1..];
    } else {
      RelatedKeys(edges[1..], source, target, relation, props, now);
      var more := Related(edges[1..], source, target, relation, props, now);
      assert ([edges[0]] + more)[1..] == more;
    }
  }

  lemma RelatedKeepsOne(edges: seq<Edge>, source: string, target: string, relation: string, props: Props, now: string)
    requires OnePerRelation(edges)
    ensures OnePerRelation(Related(edges, source, target, relation, props, now))
  {
    RelatedKeys(edges, source, target, relation, props, now);
    LookupIsKey(edges, source, relation);
    if Lookup(edges, source, relation).Some? {
      assert Keys(edges) + [] == Keys(edges);
    } else {
      NoDupAppend(Keys(edges), (source, relation));
    }
  }

  /** In every run each source keeps at most one outgoing edge per relation. */
  lemma {:induction false} AlwaysOnePerRelation(idOf: IdOf, ops: seq<Op>)
    ensures OnePerRelation(Run(idOf, ops).edges)
  {
    if ops == [] {
    } else {
      var g, op := Run(idOf, ops[..|ops| - 1]), ops[|ops| - 1];
      AlwaysOnePerRelation(idOf, ops[..|ops| - 1]);
      if op.Relate? {
        RelatedKeepsOne(g.edges, idOf(op.source), idOf(op.target), op.relation, op.props, op.now);
      }
    }
  }

  // ---- Which relationship that is ----

  /** What the lookup of a source and relation becomes when the pair is related once more. */
  function Refreshed(before: Option<Edge>, source: string, target: string, relation: string, props: Props,
                     now: string): Edge {
    if before.Some? then Touched(before.value, props, now) else Edge(source, target, relation, now, now, props)
  }

  lemma {:induction false} RelatedLookup(edges: seq<Edge>, source: string, target: string, relation: string,
                                        props: Props, now: string, s: string, r: string)
    ensures Lookup(Related(edges, source, target, relation, props, now), s, r)
         == if (s, r) == (source, relation)
            then Some(Refreshed(Lookup(edges, s, r), source, target, relation, props, now))
            else Lookup(edges, s, r)
  {
    if edges == [] {
      assert Related(edges, source, target, relation, props, now)[1..] == [];
    } else if Matches(edges[0], source, relation) {
      assert ([Touched(edges[0], props, now)] + edges[1..])[1..] == edges[1..];
    } else {
      RelatedLookup(edges[1..], source, target, relation, props, now, s, r);
      var more := Related(edges[1..], source, target, relation, props, now);
      assert ([edges[0]] + more)[1..] == more;
    }
  }

  /** The operations that relate that source by that relation, in order. */
  function Relating(idOf: IdOf, ops: seq<Op>, source: string, relation: string): (found: seq<Op>)
    ensures forall i :: 0 <= i < |found| ==> found[i].Relate? && found[i].relation == relation
  {
    if ops == [] then []
    else
      var op := ops[|ops| - 1];
      Relating(idOf, ops[..|ops| - 1], source, relation)
        + if op.Relate? && idOf(op.source) == source && op.relation == relation then [op] else []
  }

  function AllProps(ops: seq<Op>): Props {
    if ops == [] then map[] else AllProps(ops[..|ops| - 1]) + ops[|ops| - 1].props
  }

  lemma AllPropsSnoc(ops: seq<Op>, op: Op)
    ensures AllProps(ops + [op]) == AllProps(ops) + op.props
  {
    assert (ops + [op])[..|ops|] == ops;
  }

  /** The edge that a series of relating operations amounts to. */
  function Summary(idOf: IdOf, source: string, relation: string, found: seq<Op>): Option<Edge>
    requires forall i :: 0 <= i < |found| ==> found[i].Relate?
  {
    if found == [] then None
    else Some(Edge(source, idOf(found[0].target), relation, found[0].now, found[|found| - 1].now, AllProps(found)))
  }

  /**
   The first target wins: whatever the run, the edge of a source and relation points to the target of
   the first operation that related them, was created by it, was last touched by the last one, and
   carries the properties of all of them, those meant for other targets included.
   */
  lemma {:induction false} FirstTargetWins(idOf: IdOf, ops: seq<Op>, source: string, relation: string)
    ensures Lookup(Run(idOf, ops).edges, source, relation)
         == Summary(idOf, source, relation, Relating(idOf, ops, source, relation))
  {
    if ops == [] {
    } else {
      var before, op := ops[..|ops| - 1], ops[|ops| - 1];
      var found := Relating(idOf, before, source, relation);
      FirstTargetWins(idOf, before, source, relation);
      if op.Relate? {
        RelatedLookup(Run(idOf, before).edges, idOf(op.source), idOf(op.target), op.relation, op.props, op.now,
                      source, relation);
        if idOf(op.source) == source && op.relation == relation {
          AllPropsSnoc(found, op);
          assert found == [] ==> AllProps(found) + op.props == op.props;
        } else {
          assert found + [] == found;
        }
      } else {
        assert found + [] == found;
      }
    }
  }

  ghost predicate HasEdge(edges: seq<Edge>, source: string, target: string, relation: string) {
    exists i :: 0 <= i < |edges| && Matches(edges[i], source, relation) && edges[i].target == target
  }

  lemma {:induction false} HasEdgeIsLookup(edges: seq<Edge>, source: string, target: string, relation: string)
    requires OnePerRelation(edges)
    ensures HasEdge(edges, source, target, relation)
       <==> Lookup(edges, source, relation).Some? && Lookup(edges, source, relation).value.target == target
  {
    if edges == [] {
    } else {
      var rest := edges[1..];
      assert Keys(edges)[1..] == Keys(rest);
      HasEdgeIsLookup(rest, source, target, relation);
      LookupIsKey(rest, source, relation);
      assert forall i :: 1 <= i < |edges| ==> edges[i] == rest[i - 1];
      if HasEdge(rest, source, target, relation) {
        var i :| 0 <= i < |rest| && Matches(rest[i], source, relation) && rest[i].target == target;
        assert edges[i + 1] == rest[i];
      }
    }
  }

  /**
   Adding a relationship leaves it in the graph exactly if the source had no edge of that relation
   to another target. If it had, the call changes that other edge instead.
   */
  lemma AddedExactly(g: Graph, idOf: IdOf, op: Op)
    requires OnePerRelation(g.edges) && op.Relate?
    ensures HasEdge(Step(g, idOf, op).edges, idOf(op.source), idOf(op.target), op.relation)
       <==> !exists other :: other != idOf(op.target) && HasEdge(g.edges, idOf(op.source), other, op.relation)
  {
    var s, t, r := idOf(op.source), idOf(op.target), op.relation;
    RelatedKeepsOne(g.edges, s, t, r, op.props, op.now);
    RelatedLookup(g.edges, s, t, r, op.props, op.now, s, r);
    HasEdgeIsLookup(Step(g, idOf, op).edges, s, t, r);
    forall other
      ensures HasEdge(g.edges, s, other, r)
         <==> Lookup(g.edges, s, r).Some? && Lookup(g.edges, s, r).value.target == other
    {
      HasEdgeIsLookup(g.edges, s, other, r);
    }
    if Lookup(g.edges, s, r).Some? { assert HasEdge(g.edges, s, Lookup(g.edges, s, r).value.target, r); }
  }

  const TWO_FRIENDS := [Relate("Alice", "Bob", "knows", map[], "1", "1", "1"),
                        Relate("Alice", "Carol", "knows", map[], "2", "2", "2")]

  /** The second person Alice knows is not recorded. */
  lemma SecondTargetIsLost(idOf: IdOf)
    requires idOf("Alice") == "alice" && idOf("Bob") == "bob" && idOf("Carol") == "carol"
    ensures !HasEdge(Run(idOf, TWO_FRIENDS).edges, "alice", "carol", "knows")
  {
    var ops := TWO_FRIENDS;
    var first := ops[..1];
    assert first == [ops[0]] && ops[..|ops| - 1] == first && first[..0] == [];
    assert Relating(idOf, first, "alice", "knows") == [ops[0]];
    FirstTargetWins(idOf, first, "alice", "knows");
    FirstTargetWins(idOf, ops, "alice", "knows");
    AlwaysOnePerRelation(idOf, ops);
    HasEdgeIsLookup(Run(idOf, ops).edges, "alice", "carol", "knows");
  }

  // ---- Edges join known entities ----

  ghost predicate Anchored(g: Graph) {
    forall i :: 0 <= i < |g.edges| ==> g.edges[i].source in g.nodes && g.edges[i].target in g.nodes
  }

  lemma {:induction false} RelatedEnds(edges: seq<Edge>, source: string, target: string, relation: string,
                                      props: Props, now: string, ids: set<string>)
    requires source in ids && target in ids
    requires forall i :: 0 <= i < |edges| ==> edges[i].source in ids && edges[i].target in ids
    ensures forall e :: e in Related(edges, source, target, relation, props, now) ==> e.source in ids && e.target in ids
  {
    if edges == [] {
    } else if !Matches(edges[0], source, relation) {
      assert forall i :: 0 <= i < |edges[1..]| ==> edges[1..][i] == edges[i + 1];
      RelatedEnds(edges[1..], source, target, relation, props, now, ids);
    }
  }

  /** Both ends of every edge are entities, in every run. */
  lemma {:induction false} AlwaysAnchored(idOf: IdOf, ops: seq<Op>)
    ensures Anchored(Run(idOf, ops))
  {
    if ops == [] {
    } else {
      var g, op := Run(idOf, ops[..|ops| - 1]), ops[|ops| - 1];
      AlwaysAnchored(idOf, ops[..|ops| - 1]);
      if op.Relate? {
        RelatedEnds(g.edges, idOf(op.source), idOf(op.target), op.relation, op.props, op.now, Run(idOf,
                    ops).nodes.Keys);
      }
    }
  }
}
