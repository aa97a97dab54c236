/** `_split_elements_by_table_limit` of `channels/feishu.py`. */
module CardSplitter {
  import opened Sequences

  datatype Element = Element(tag: string, body: string)

  predicate IsTable(e: Element) {
    e.tag == "table"
  }

  function Tables(es: seq<Element>): nat {
    if es == [] then 0
    else Tables(es[..|es| - 1]) + (if IsTable(es[|es| - 1]) then 1 else 0)
  }

  ghost predicate Fits(groups: seq<seq<Element>>, limit: int) {
    forall i :: 0 <= i < |groups| ==> Tables(groups[i]) <= limit
  }

  /** How many groups of at most `limit` tables `tables` tables need, and at least one. */
  function Needed(tables: nat, limit: int): nat
    requires limit >= 1
  {
    if tables == 0 then 1 else (tables + limit - 1) / limit
  }

  /** `limit` added up `n` times. */
  function Times(n: nat, limit: int): int {
    if n == 0 then 0 else Times(n - 1, limit) + limit
  }

  /** Every group but the last is full, and every group but the first opens with a table. */
  ghost predicate Greedy(groups: seq<seq<Element>>, limit: int) {
    && (forall i :: 0 <= i < |groups| - 1 ==> Tables(groups[i]) == limit)
    && forall i :: 1 <= i < |groups| ==> groups[i] != [] && IsTable(groups[i][0])
  }

  function Cap(maxTables: int): int {
    if maxTables < 1 then 1 else maxTables
  }

  ghost predicate Joined(done: seq<Element>, groups: seq<seq<Element>>, current: seq<Element>) {
    Flatten(groups) + current == done
  }

  lemma JoinedMore(done: seq<Element>, groups: seq<seq<Element>>, current: seq<Element>, el: Element)
    requires Joined(done, groups, current)
    ensures Joined(done + [el], groups, current + [el])
    ensures Joined(done + [el], groups + [current], [el])
    ensures current == [] ==> Joined(done + [el], groups, [el])
  {
    FlattenAppend(groups, current);
    assert Flatten(groups) + (current + [el]) == Flatten(groups) + current + [el];
    assert current == [] ==> Flatten(groups) + current == Flatten(groups);
  }

  /** The loop invariant: `done` is cut into finished groups and the current one. */
  ghost predicate Cut(done: seq<Element>, groups: seq<seq<Element>>, current: seq<Element>, maxTables: int) {
    && Joined(done, groups, current)
    && (done != [] ==> current != [])
    && Tables(current) <= Cap(maxTables) && Fits(groups, Cap(maxTables))
    && (forall i :: 0 <= i < |groups| ==> groups[i] != [])
    && (forall i :: 1 <= i < |groups| ==> IsTable(groups[i][0]))
    && (groups != [] ==> current != [] && IsTable(current[0]))
    && (maxTables >= 1 ==> forall i :: 0 <= i < |groups| ==> Tables(groups[i]) == maxTables)
  }

  predicate Flushes(current: seq<Element>, el: Element, maxTables: int) {
    IsTable(el) && Tables(current) >= maxTables
  }

  /** The finished groups and the current one. */
  datatype Partial = Partial(groups: seq<seq<Element>>, current: seq<Element>)

  /** One round of the loop. */
  function Next(p: Partial, el: Element, maxTables: int): Partial {
    if Flushes(p.current, el, maxTables)
    then Partial(if p.current != [] then p.groups + [p.current] else p.groups, [el])
    else Partial(p.groups, p.current + [el])
  }

  function Rounds(elements: seq<Element>, maxTables: int): Partial {
    if elements == [] then Partial([], [])
    else Next(Rounds(elements[..|elements| - 1], maxTables), elements[|elements| - 1], maxTables)
  }

  ghost predicate CutSoFar(done: seq<Element>, p: Partial, maxTables: int) {
    Cut(done, p.groups, p.current, maxTables)
  }

  lemma NextCut(done: seq<Element>, p: Partial, el: Element, maxTables: int, longer: seq<Element>)
    requires CutSoFar(done, p, maxTables) && longer == done + [el]
    ensures CutSoFar(longer, Next(p, el, maxTables), maxTables)
  {
    if Flushes(p.current, el, maxTables) {
      Flushed(done, p.groups, p.current, el, maxTables);
    } else {
      Extended(done, p.groups, p.current, el, maxTables);
    }
  }

  lemma {:induction false} RoundsCut(elements: seq<Element>, maxTables: int)
    ensures CutSoFar(elements, Rounds(elements, maxTables), maxTables)
  {
    if elements == [] {
    } else {
      var n := |elements| - 1;
      RoundsCut(elements[..n], maxTables);
      NextCut(elements[..n], Rounds(elements[..n], maxTables), elements[n], maxTables, elements);
    }
  }

  lemma OneMoreRound(elements: seq<Element>, i: nat, maxTables: int)
    requires i < |elements|
    ensures Rounds(elements[..i + 1], maxTables) == Next(Rounds(elements[..i], maxTables), elements[i], maxTables)
  {
    assert elements[..i + 1][..i] == elements[..i];
  }

  lemma CountOneMore(current: seq<Element>, el: Element)
    ensures Tables(current + [el]) == Tables(current) + if IsTable(el) then 1 else 0
    ensures [] + [el] == [el]
  {
    assert (current + [el])[..|current|] == current;
  }

  /** What the loop leaves, with its last group closed. */
  function Groups(elements: seq<Element>, maxTables: int): seq<seq<Element>> {
    if elements == [] then [[]]
    else
      var p := Rounds(elements, maxTables);
      p.groups + [p.current]
  }

  ghost predicate NoneEmpty(groups: seq<seq<Element>>) {
    forall i :: 0 <= i < |groups| ==> groups[i] != []
  }

  ghost predicate Splits(elements: seq<Element>, groups: seq<seq<Element>>, maxTables: int) {
    && Flatten(groups) == elements && Fits(groups, Cap(maxTables))
    && (elements != [] ==> NoneEmpty(groups))
    && (maxTables >= 1 ==> Greedy(groups, maxTables) && |groups| == Needed(Tables(elements), maxTables))
  }

  /**
   The groups concatenate to the input, none is empty unless the input is, each holds at most the
   limit, all but the last are full, all but the first open with a table, and there are
   max(1, ceil(tables / limit)) of them.
   */
  lemma GroupsFacts(elements: seq<Element>, maxTables: int)
    ensures Splits(elements, Groups(elements, maxTables), maxTables)
  {
    if elements == [] {
      assert Groups(elements, maxTables)[..0] == [];
    } else {
      RoundsCut(elements, maxTables);
      var p := Rounds(elements, maxTables);
      Finished(elements, p.groups, p.current, maxTables);
    }
  }

  // ---- A limit below one ----

  /** A table can only be the first element of its group. */
  ghost predicate TableOpens(group: seq<Element>) {
    forall j :: 1 <= j < |group| ==> group[j].tag != "table"
  }

  ghost predicate TablesOpen(p: Partial) {
    TableOpens(p.current) && forall i :: 0 <= i < |p.groups| ==> TableOpens(p.groups[i])
  }

  lemma NextOpens(p: Partial, el: Element, maxTables: int)
    requires maxTables < 1 && TablesOpen(p)
    ensures TablesOpen(Next(p, el, maxTables))
  {
  }

  lemma {:induction false} RoundsOpen(elements: seq<Element>, maxTables: int)
    requires maxTables < 1
    ensures TablesOpen(Rounds(elements, maxTables))
  {
    if elements == [] {
    } else {
      var n := |elements| - 1;
      RoundsOpen(elements[..n], maxTables);
      NextOpens(Rounds(elements[..n], maxTables), elements[n], maxTables);
    }
  }

  /** With a limit below one every table opens a group of its own, as with a limit of one, but for what precedes it. */
  lemma EachTableOpens(elements: seq<Element>, maxTables: int)
    requires maxTables < 1
    ensures var groups := Groups(elements, maxTables);
      && (forall i :: 0 <= i < |groups| ==> TableOpens(groups[i]))
      && forall i :: 1 <= i < |groups| ==> groups[i] != [] && groups[i][0].tag == "table"
  {
    RoundsOpen(elements, maxTables);
    RoundsCut(elements, maxTables);
  }

  method SplitByTableLimit(elements: seq<Element>, maxTables: int) returns (groups: seq<seq<Element>>)
    ensures groups == Groups(elements, maxTables)
  {
    if elements == [] {
      return [[]];
    }
    groups := [];
    var current: seq<Element> := [];
    var tableCount := 0;
    for i := 0 to |elements|
      invariant Partial(groups, current) == Rounds(elements[..i], maxTables)
      invariant tableCount == Tables(current)
      invariant i > 0 ==> current != []
    {
      var el := elements[i];
      OneMoreRound(elements, i, maxTables);
      CountOneMore(current, el);
      CountOneMore([], el);
      if IsTable(el) {
        if tableCount >= maxTables {
          if current != [] {
            groups := groups + [current];
          }
          current := [];
          tableCount := 0;
        }
        current := current + [el];
        tableCount := tableCount + 1;
      } else {
        current := current + [el];
      }
    }
    assert elements[..|elements|] == elements;
    assert Partial(groups, current) == Rounds(elements, maxTables);
    if current != [] {
      groups := groups + [current];
    }
    if groups == [] {
      groups := [[]];
    }
  }

  lemma Extended(done: seq<Element>, groups: seq<seq<Element>>, current: seq<Element>, el: Element, maxTables: int)
    requires Cut(done, groups, current, maxTables) && (IsTable(el) ==> Tables(current) < Cap(maxTables))
    ensures Cut(done + [el], groups, current + [el], maxTables)
    ensures Tables(current + [el]) == Tables(current) + if IsTable(el) then 1 else 0
  {
    CountOneMore(current, el);
    JoinedMore(done, groups, current, el);
  }

  lemma Flushed(done: seq<Element>, groups: seq<seq<Element>>, current: seq<Element>, el: Element, maxTables: int)
    requires Cut(done, groups, current, maxTables) && IsTable(el) && Tables(current) >= maxTables
    ensures Cut(done + [el], if current != [] then groups + [current] else groups, [el], maxTables)
    ensures Tables([el]) == 1
  {
    assert [el][..0] == [];
    JoinedMore(done, groups, current, el);
    if current != [] {
      GroupsClosed(done, groups, current, maxTables);
      var all := groups + [current];
      assert Cut(done + [el], all, [el], maxTables);
    }
  }

  /** Closing the current group keeps what the invariant says of each group. */
  lemma GroupsClosed(done: seq<Element>, groups: seq<seq<Element>>, current: seq<Element>, maxTables: int)
    requires Cut(done, groups, current, maxTables) && current != [] && Tables(current) >= maxTables
    ensures var all := groups + [current];
      && Fits(all, Cap(maxTables))
      && (forall i :: 0 <= i < |all| ==> all[i] != [])
      && (forall i :: 1 <= i < |all| ==> IsTable(all[i][0]))
      && (maxTables >= 1 ==> forall i :: 0 <= i < |all| ==> Tables(all[i]) == maxTables)
  {
    var all := groups + [current];
    forall i | 0 <= i < |all|
      ensures all[i] != [] && Tables(all[i]) <= Cap(maxTables)
      ensures i >= 1 ==> IsTable(all[i][0])
      ensures maxTables >= 1 ==> Tables(all[i]) == maxTables
    {
      assert all[i] == if i < |groups| then groups[i] else current;
    }
  }

  lemma Finished(elements: seq<Element>, groups: seq<seq<Element>>, current: seq<Element>, maxTables: int)
    requires Cut(elements, groups, current, maxTables) && elements != []
    ensures Splits(elements, groups + [current], maxTables)
  {
    var all := groups + [current];
    FlattenAppend(groups, current);
    if maxTables >= 1 {
      assert Greedy(all, maxTables);
      TablesOfGreedy(all, maxTables);
      CeilingOf(|groups|, Tables(current), maxTables);
    }
  }

  lemma CeilingOf(full: nat, last: nat, limit: int)
    requires limit >= 1 && last <= limit && (full > 0 ==> last >= 1)
    ensures Times(full, limit) >= 0
    ensures Needed(Times(full, limit) + last, limit) == full + 1
  {
    TimesIsProduct(full, limit);
    if last > 0 {
      var t := full * limit + last + limit - 1;
      assert t == (full + 1) * limit + (last - 1);
      Quotient(t, full + 1, limit);
    }
  }

  lemma {:induction false} TimesIsProduct(n: nat, limit: int)
    ensures Times(n, limit) == n * limit
    ensures limit >= 0 ==> Times(n, limit) >= 0
  {
    if n > 0 {
      TimesIsProduct(n - 1, limit);
      assert n * limit == (n - 1) * limit + limit;
    }
  }

  lemma Monotone(m: int, n: int, d: int)
    requires d >= 1
    ensures m <= n ==> m * d <= n * d
  {
  }

  lemma Quotient(x: nat, q: nat, d: int)
    requires d >= 1
    ensures q * d <= x < (q + 1) * d ==> x / d == q
    ensures x < (q + 1) * d ==> x / d <= q
  {
    var k := x / d;
    assert k * d <= x < (k + 1) * d;
    Monotone(k + 1, q, d);
    Monotone(q + 1, k, d);
  }

  lemma {:induction false} TablesOfConcat(a: seq<Element>, b: seq<Element>)
    ensures Tables(a + b) == Tables(a) + Tables(b)
  {
    if b == [] {
      assert a + b == a;
    } else {
      var n := |b| - 1;
      TablesOfConcat(a, b[..n]);
      assert (a + b)[..|a + b| - 1] == a + b[..n];
    }
  }

  lemma {:induction false} TablesAtMost(groups: seq<seq<Element>>, limit: int)
    requires limit >= 1 && Fits(groups, limit)
    ensures Tables(Flatten(groups)) <= Times(|groups|, limit)
  {
    if groups == [] {
    } else {
      var n := |groups| - 1;
      assert Fits(groups[..n], limit);
      TablesAtMost(groups[..n], limit);
      TablesOfConcat(Flatten(groups[..n]), groups[n]);
    }
  }

  /** No contiguous partition that meets the limit uses fewer groups than `SplitByTableLimit`. */
  lemma FewestGroups(groups: seq<seq<Element>>, elements: seq<Element>, limit: int)
    requires limit >= 1 && elements != [] && Flatten(groups) == elements && Fits(groups, limit)
    ensures |groups| >= Needed(Tables(elements), limit)
  {
    TablesAtMost(groups, limit);
    assert groups != [];
    AtMostCeiling(Tables(elements), |groups|, limit);
  }

  lemma AtMostCeiling(tables: nat, n: nat, limit: int)
    requires limit >= 1 && n >= 1 && tables <= Times(n, limit)
    ensures Needed(tables, limit) <= n
  {
    TimesIsProduct(n, limit);
    assert tables + limit - 1 < (n + 1) * limit by { assert (n + 1) * limit == n * limit + limit; }
    Quotient(tables + limit - 1, n, limit);
  }

  lemma {:induction false} TablesOfGreedy(groups: seq<seq<Element>>, limit: int)
    requires limit >= 1 && groups != [] && Greedy(groups, limit)
    ensures Tables(Flatten(groups)) == Times(|groups| - 1, limit) + Tables(groups[|groups| - 1])
    ensures |groups| > 1 ==> Tables(groups[|groups| - 1]) >= 1
  {
    var n := |groups| - 1;
    TablesOfConcat(Flatten(groups[..n]), groups[n]);
    if n > 0 {
      TablesOfGreedy(groups[..n], limit);
      assert Tables(groups[n - 1]) == limit;
      StartsWithTable(groups[n]);
    }
  }

  lemma StartsWithTable(g: seq<Element>)
    requires g != [] && IsTable(g[0])
    ensures Tables(g) >= 1
  {
    TablesOfConcat(g[..1], g[1..]);
    assert g == g[..1] + g[1..];
    assert g[..1][..0] == [];
  }

  lemma SameQuotient(m: nat, r: nat, n: nat, s: nat, limit: int)
    requires limit >= 1 && Times(m, limit) + r == Times(n, limit) + s && r <= limit && s <= limit
    requires (m > 0 ==> r >= 1) && (n > 0 ==> s >= 1)
    ensures m == n && r == s
  {
    TimesIsProduct(m, limit);
    TimesIsProduct(n, limit);
    Monotone(m + 1, n, limit);
    Monotone(n + 1, m, limit);
  }

  lemma SuffixesAgree(a: seq<Element>, x: seq<Element>, b: seq<Element>, y: seq<Element>)
    requires a + x == b + y && |x| <= |y| && Tables(x) == Tables(y)
    requires y != [] && IsTable(y[0])
    ensures x == y && a == b
  {
    var k := |y| - |x|;
    SameEnds(a, x, b, y);
    TablesOfConcat(y[..k], x);
    if k > 0 {
      assert y[..k][0] == y[0];
      StartsWithTable(y[..k]);
    }
    assert y[..0] + x == x;
    assert (a + x)[..|a|] == a && (b + y)[..|b|] == b;
  }

  lemma SameEnds(a: seq<Element>, x: seq<Element>, b: seq<Element>, y: seq<Element>)
    requires a + x == b + y && |x| <= |y|
    ensures y == y[..|y| - |x|] + x
  {
    var all := a + x;
    assert all[|a|..] == x;
    assert all[|b|..] == y;
    assert all[|b|..][|y| - |x|..] == all[|a|..];
  }

  /** Greedy partitions meeting the limit are unique: these properties fix the output of `SplitByTableLimit`. */
  lemma {:induction false} GreedyUnique(a: seq<seq<Element>>, b: seq<seq<Element>>, limit: int)
    requires limit >= 1 && a != [] && b != [] && Flatten(a) == Flatten(b)
    requires Greedy(a, limit) && Greedy(b, limit) && Fits(a, limit) && Fits(b, limit)
    ensures a == b
    decreases |a|
  {
    var m, n := |a| - 1, |b| - 1;
    TablesOfGreedy(a, limit);
    TablesOfGreedy(b, limit);
    SameQuotient(m, Tables(a[m]), n, Tables(b[n]), limit);
    if m == 0 {
      assert a[..0] == [] && b[..0] == [];
      assert a == [a[0]] && b == [b[0]];
      assert Flatten(a) == [] + a[0] == a[0] && Flatten(b) == [] + b[0] == b[0];
    } else {
      if |a[m]| <= |b[n]| {
        SuffixesAgree(Flatten(a[..m]), a[m], Flatten(b[..n]), b[n]);
      } else {
        SuffixesAgree(Flatten(b[..n]), b[n], Flatten(a[..m]), a[m]);
      }
      GreedyUnique(a[..m], b[..n], limit);
      assert a == a[..m] + [a[m]] && b == b[..n] + [b[n]];
    }
  }
}
