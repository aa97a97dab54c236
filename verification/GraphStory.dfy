/**
 What an entity of `memory/graph_memory.py` is, told from the calls alone: who described it, with which
 values, and when.
 */
module GraphStory {
  import opened Wrappers
  import opened GraphModel

  predicate Describes(idOf: IdOf, op: Op, id: string) {
    op.Describe? && idOf(op.name) == id
  }

  predicate Relates(idOf: IdOf, op: Op, id: string) {
    op.Relate? && (idOf(op.source) == id || idOf(op.target) == id)
  }

  /** Some call named the entity. */
  predicate Known(idOf: IdOf, ops: seq<Op>, id: string) {
    ops != []
    && var last := ops[|ops| - 1];
       Describes(idOf, last, id) || Relates(idOf, last, id) || Known(idOf, ops[..|ops| - 1], id)
  }

  /** The value in the last description of the entity that gives the property. */
  function LastGiven(idOf: IdOf, ops: seq<Op>, id: string, key: string): Option<Value> {
    if ops == [] then None
    else
      var last := ops[|ops| - 1];
      if Describes(idOf, last, id) && key in last.props then Some(last.props[key])
      else LastGiven(idOf, ops[..|ops| - 1], id, key)
  }

  /** What a reader of the property sees: a property never given reads as `None`. */
  function Reading(idOf: IdOf, ops: seq<Op>, id: string, key: string): Value {
    LastGiven(idOf, ops, id, key).GetOr(Null)
  }

  datatype Label = Label(name: string, kind: string, at: string)

  /** Name, kind and time of a first mention. */
  function FirstLabel(idOf: IdOf, op: Op, id: string): Label
    requires Describes(idOf, op, id) || Relates(idOf, op, id)
  {
    match op
    case Describe(name, kind, _, now) => Label(name, kind, now)
    case Relate(source, target, _, _, sourceAt, targetAt, _) =>
      if idOf(source) == id then Label(source, "Concept", sourceAt) else Label(target, "Concept", targetAt)
  }

  /** Those of the last description, or of the relation that first mentioned the entity. */
  function LastLabel(idOf: IdOf, ops: seq<Op>, id: string): Label
    requires Known(idOf, ops, id)
  {
    var last, before := ops[|ops| - 1], ops[..|ops| - 1];
    if Describes(idOf, last, id) || !Known(idOf, before, id) then FirstLabel(idOf, last, id)
    else LastLabel(idOf, before, id)
  }

  /** The time of the first mention. */
  function Since(idOf: IdOf, ops: seq<Op>, id: string): string
    requires Known(idOf, ops, id)
  {
    var last, before := ops[|ops| - 1], ops[..|ops| - 1];
    if Known(idOf, before, id) then Since(idOf, before, id) else FirstLabel(idOf, last, id).at
  }

  /** The properties that a description changes, with the values read before and after it. */
  function News(idOf: IdOf, before: seq<Op>, id: string, given: Props): map<string, Change> {
    map k | k in given && given[k] != Reading(idOf, before, id, k) :: Change(Reading(idOf, before, id, k), given[k])
  }

  /** One entry for each description of an entity already known that gave a value different from the one then read. */
  function Story(idOf: IdOf, ops: seq<Op>, id: string): seq<Entry> {
    if ops == [] then []
    else
      var last, before := ops[|ops| - 1], ops[..|ops| - 1];
      var told := Story(idOf, before, id);
      if Describes(idOf, last, id) && Known(idOf, before, id) && News(idOf, before, id, last.props) != map[]
      then told + [Entry(News(idOf, before, id, last.props), last.now)] else told
  }

  ghost predicate HasProps(idOf: IdOf, ops: seq<Op>, id: string, props: Props) {
    forall k :: Holds(idOf, ops, id, props, k)
  }

  /** The property is there exactly if it was ever given, with the value given last. */
  predicate Holds(idOf: IdOf, ops: seq<Op>, id: string, props: Props, key: string) {
    (if key in props then Some(props[key]) else None) == LastGiven(idOf, ops, id, key)
  }

  ghost predicate Told(idOf: IdOf, ops: seq<Op>, id: string, e: Entity)
    requires Known(idOf, ops, id)
  {
    var latest := LastLabel(idOf, ops, id);
    && e.name == latest.name && e.kind == latest.kind && e.updatedAt == latest.at && e.createdAt == Since(idOf, ops, id)
    && HasProps(idOf, ops, id, e.props) && e.history == Story(idOf, ops, id)
  }

  lemma {:induction false} UnknownGaveNothing(idOf: IdOf, ops: seq<Op>, id: string, key: string)
    requires !Known(idOf, ops, id)
    ensures LastGiven(idOf, ops, id, key) == None && Story(idOf, ops, id) == []
  {
    if ops == [] {
    } else {
      UnknownGaveNothing(idOf, ops[..|ops| - 1], id, key);
    }
  }

  lemma SameNews(idOf: IdOf, before: seq<Op>, id: string, props: Props, given: Props)
    requires HasProps(idOf, before, id, props)
    ensures GraphModel.Changes(props, given) == News(idOf, before, id, given)
  {
    forall k
      ensures Get(props, k) == Reading(idOf, before, id, k)
    {
      assert Holds(idOf, before, id, props, k);
    }
  }

  lemma MergedProps(idOf: IdOf, ops: seq<Op>, id: string, props: Props)
    requires ops != [] && Describes(idOf, ops[|ops| - 1], id) && HasProps(idOf, ops[..|ops| - 1], id, props)
    ensures HasProps(idOf, ops, id, props + ops[|ops| - 1].props)
  {
    var merged := props + ops[|ops| - 1].props;
    forall k
      ensures Holds(idOf, ops, id, merged, k)
    {
      assert Holds(idOf, ops[..|ops| - 1], id, props, k);
    }
  }

  lemma SameProps(idOf: IdOf, ops: seq<Op>, id: string, props: Props)
    requires ops != [] && !Describes(idOf, ops[|ops| - 1], id) && HasProps(idOf, ops[..|ops| - 1], id, props)
    ensures HasProps(idOf, ops, id, props)
  {
    forall k
      ensures Holds(idOf, ops, id, props, k)
    {
      assert Holds(idOf, ops[..|ops| - 1], id, props, k);
    }
  }

  /** A first mention starts the story. */
  lemma FirstMention(idOf: IdOf, ops: seq<Op>, id: string)
    requires ops != [] && Known(idOf, ops, id) && !Known(idOf, ops[..|ops| - 1], id)
    requires id !in Run(idOf, ops[..|ops| - 1]).nodes
    ensures id in Run(idOf, ops).nodes && Told(idOf, ops, id, Run(idOf, ops).nodes[id])
  {
    var before, last := ops[..|ops| - 1], ops[|ops| - 1];
    forall k
      ensures Holds(idOf, before, id, map[], k)
    {
      UnknownGaveNothing(idOf, before, id, k);
    }
    UnknownGaveNothing(idOf, before, id, "");
    if last.Describe? {
      MergedProps(idOf, ops, id, map[]);
      assert map[] + last.props == last.props;
    } else {
      SameProps(idOf, ops, id, map[]);
    }
  }

  lemma DescribedAgain(idOf: IdOf, ops: seq<Op>, id: string, e: Entity)
    requires ops != [] && Known(idOf, ops[..|ops| - 1], id) && Told(idOf, ops[..|ops| - 1], id, e)
    requires Describes(idOf, ops[|ops| - 1], id)
    ensures var last := ops[|ops| - 1];
      Told(idOf, ops, id, Updated(e, last.name, last.kind, last.props, last.now))
  {
    var last := ops[|ops| - 1];
    MergedProps(idOf, ops, id, e.props);
    SameNews(idOf, ops[..|ops| - 1], id, e.props, last.props);
  }

  lemma NotDescribed(idOf: IdOf, ops: seq<Op>, id: string, e: Entity)
    requires ops != [] && Known(idOf, ops[..|ops| - 1], id) && Told(idOf, ops[..|ops| - 1], id, e)
    requires !Describes(idOf, ops[|ops| - 1], id)
    ensures Told(idOf, ops, id, e)
  {
    SameProps(idOf, ops, id, e.props);
  }

  lemma MentionedAgain(g: Graph, idOf: IdOf, op: Op, id: string)
    requires id in g.nodes
    ensures var g' := Step(g, idOf, op);
      id in g'.nodes && g'.nodes[id] == if Describes(idOf, op, id)
                                        then Updated(g.nodes[id], op.name, op.kind, op.props, op.now) else g.nodes[id]
  {
  }

  /**
   After every run the graph holds exactly the entities that some call named. Each has the name and kind of its
   last description, or those of the relation that made it; every property has the value given last and no
   other property is there; and the history tells every change of a property as its readers saw it.
   */
  lemma {:induction false} RunIsTold(idOf: IdOf, ops: seq<Op>, id: string)
    ensures id in Run(idOf, ops).nodes <==> Known(idOf, ops, id)
    ensures Known(idOf, ops, id) ==> Told(idOf, ops, id, Run(idOf, ops).nodes[id])
  {
    if ops == [] {
    } else {
      var before := ops[..|ops| - 1];
      RunIsTold(idOf, before, id);
      if Known(idOf, before, id) {
        var g, last := Run(idOf, before), ops[|ops| - 1];
        MentionedAgain(g, idOf, last, id);
        if Describes(idOf, last, id) {
          DescribedAgain(idOf, ops, id, g.nodes[id]);
        } else {
          NotDescribed(idOf, ops, id, g.nodes[id]);
        }
      } else if Known(idOf, ops, id) {
        FirstMention(idOf, ops, id);
      }
    }
  }
}
