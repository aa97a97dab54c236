/** The match list and the splice loop of `InferencePIIScanner.scan` in `inference/pii_scanner.py`. */
module PiiSplice {

  datatype Match = Match(entity: string, value: string, start: nat, end: nat)

  datatype ScanResult = ScanResult(hasPii: bool, matches: seq<Match>, sanitized: string)

  // ---- Python slices, which clamp ----

  function Upto(s: string, n: nat): string {
    if n < |s| then s[..n] else s
  }

  function From(s: string, n: nat): string {
    if n < |s| then s[n..] else ""
  }

  // ---- `sorted(matches, key=start, reverse=True)`, which is stable ----

  function Placed(m: Match, ms: seq<Match>): seq<Match> {
    if ms == [] || m.start >= ms[0].start then [m] + ms else [ms[0]] + Placed(m, ms[1..])
  }

  function ByStartDescending(ms: seq<Match>): seq<Match> {
    if ms == [] then [] else Placed(ms[0], ByStartDescending(ms[1..]))
  }

  function Replaced(text: string, m: Match, mask: string -> string): string {
    Upto(text, m.start) + mask(m.entity) + From(text, m.end)
  }

  function Spliced(text: string, ms: seq<Match>, mask: string -> string): string
    decreases |ms|
  {
    if ms == [] then text else Spliced(Replaced(text, ms[0], mask), ms[1..], mask)
  }

  /** `found` is the list of regex matches in discovery order; `mask` formats the template. */
  method Scan(text: string, found: seq<Match>, mask: string -> string) returns (r: ScanResult)
    ensures text == "" ==> r == ScanResult(false, [], "")
    ensures text != "" ==> r == ScanResult(found != [], found, Spliced(text, ByStartDescending(found), mask))
  {
    if text == "" {
      return ScanResult(false, [], "");
    }
    var sanitized := text;
    if found == [] {
      return ScanResult(false, [], text);
    }
    var sorted := ByStartDescending(found);
    for i := 0 to |sorted|
      invariant Spliced(sanitized, sorted[i..], mask) == Spliced(text, sorted, mask)
    {
      assert sorted[i..][0] == sorted[i] && sorted[i..][1..] == sorted[i + 1..];
      var m := sorted[i];
      sanitized := Upto(sanitized, m.start) + mask(m.entity) + From(sanitized, m.end);
    }
    assert sorted[|sorted|..] == [];
    r := ScanResult(true, found, sanitized);
  }

  // ---- The forward reading ----

  /** Non-empty matches inside the text, in ascending order, none overlapping the next. */
  ghost predicate Ascending(ms: seq<Match>, from: nat, length: nat) {
    ms == [] || (from <= ms[0].start < ms[0].end <= length && Ascending(ms[1..], ms[0].end, length))
  }

  /** The unmatched segments of the text from `from` on, with one mask per match between them. */
  function Forward(text: string, from: nat, ms: seq<Match>, mask: string -> string): string
    requires from <= |text| && Ascending(ms, from, |text|)
    decreases |ms|
  {
    if ms == [] then text[from..]
    else text[from..ms[0].start] + mask(ms[0].entity) + Forward(text, ms[0].end, ms[1..], mask)
  }

  function Reversed(ms: seq<Match>): seq<Match> {
    if ms == [] then [] else Reversed(ms[1..]) + [ms[0]]
  }

  /** Splicing right to left leaves everything before the leftmost match as it was. */
  lemma {:induction false} SplicedIsForward(text: string, from: nat, ms: seq<Match>, mask: string -> string)
    requires from <= |text| && Ascending(ms, from, |text|)
    ensures Spliced(text, Reversed(ms), mask) == text[..from] + Forward(text, from, ms, mask)
    decreases |ms|
  {
    if ms == [] {
      assert text == text[..from] + text[from..];
    } else {
      var m, rest := ms[0], ms[1..];
      SplicedIsForward(text, m.end, rest, mask);
      SplicedAppend(text, Reversed(rest), m, mask);
      ReplacedStep(text, from, m, Forward(text, m.end, rest, mask), mask);
    }
  }

  lemma ReplacedStep(text: string, from: nat, m: Match, tail: string, mask: string -> string)
    requires from <= m.start < m.end <= |text|
    ensures Replaced(text[..m.end] + tail, m, mask) == text[..from] + (text[from..m.start] + mask(m.entity) + tail)
  {
    var late := text[..m.end] + tail;
    assert Upto(late, m.start) == text[..m.start];
    assert From(late, m.end) == tail;
    assert text[..m.start] == text[..from] + text[from..m.start];
  }

  lemma {:induction false} SplicedAppend(text: string, ms: seq<Match>, m: Match, mask: string -> string)
    ensures Spliced(text, ms + [m], mask) == Replaced(Spliced(text, ms, mask), m, mask)
    decreases |ms|
  {
    if ms == [] {
      assert ([] + [m])[1..] == [];
    } else {
      assert (ms + [m])[1..] == ms[1..] + [m];
      SplicedAppend(Replaced(text, ms[0], mask), ms[1..], m, mask);
    }
  }

  // ---- Any discovery order ----

  ghost predicate Disjoint(a: Match, b: Match) {
    a.end <= b.start || b.end <= a.start
  }

  /** Pairwise non-overlapping, non-empty and inside the text: all that is asked of the discovery order. */
  ghost predicate NonOverlapping(ms: seq<Match>, length: nat) {
    && (forall i :: 0 <= i < |ms| ==> ms[i].start < ms[i].end <= length)
    && forall i, j :: 0 <= i < j < |ms| ==> Disjoint(ms[i], ms[j])
  }

  /** The same order read from the right. */
  ghost predicate Descending(ms: seq<Match>, length: nat) {
    ms == [] || (ms[0].start < ms[0].end <= length && Descending(ms[1..], ms[0].start))
  }

  lemma {:induction false} PlacedDescending(m: Match, ms: seq<Match>, length: nat)
    requires m.start < m.end <= length && Descending(ms, length)
    requires forall x :: x in ms ==> Disjoint(m, x)
    ensures Descending(Placed(m, ms), length)
    ensures forall x :: x in Placed(m, ms) <==> x == m || x in ms
  {
    if ms == [] {
      assert [m][1..] == [];
    } else {
      assert ms[0] in ms && ms == [ms[0]] + ms[1..];
      if m.start >= ms[0].start {
        assert ([m] + ms)[1..] == ms;
      } else {
        PlacedDescending(m, ms[1..], ms[0].start);
        var rest := Placed(m, ms[1..]);
        assert ([ms[0]] + rest)[1..] == rest;
      }
    }
  }

  lemma {:induction false} DescendingIsReversed(ms: seq<Match>, length: nat)
    ensures Descending(ms, length) <==> Ascending(Reversed(ms), 0, length)
  {
    if ms == [] {
    } else {
      DescendingIsReversed(ms[1..], ms[0].start);
      AscendingAppend(Reversed(ms[1..]), 0, ms[0], length);
    }
  }

  lemma {:induction false} AscendingAppend(ms: seq<Match>, from: nat, m: Match, length: nat)
    ensures Ascending(ms + [m], from, length)
      <==> Ascending(ms, from, m.start) && from <= m.start < m.end <= length
    decreases |ms|
  {
    if ms == [] {
      assert ([] + [m])[1..] == [];
    } else {
      assert (ms + [m])[1..] == ms[1..] + [m];
      AscendingAppend(ms[1..], ms[0].end, m, length);
    }
  }

  lemma {:induction false} SortedFacts(ms: seq<Match>, length: nat)
    requires NonOverlapping(ms, length)
    ensures Descending(ByStartDescending(ms), length)
    ensures forall x :: x in ByStartDescending(ms) <==> x in ms
  {
    if ms == [] {
    } else {
      var rest := ms[1..];
      assert ms == [ms[0]] + rest;
      assert NonOverlapping(rest, length);
      SortedFacts(rest, length);
      forall x | x in ByStartDescending(rest)
        ensures Disjoint(ms[0], x)
      {
        var i :| 0 <= i < |rest| && rest[i] == x;
        assert ms[i + 1] == x;
      }
      PlacedDescending(ms[0], ByStartDescending(rest), length);
    }
  }

  lemma {:induction false} ReversedTwice(ms: seq<Match>)
    ensures Reversed(Reversed(ms)) == ms
  {
    if ms == [] {
    } else {
      ReversedTwice(ms[1..]);
      ReversedAppend(Reversed(ms[1..]), ms[0]);
    }
  }

  lemma {:induction false} ReversedAppend(ms: seq<Match>, m: Match)
    ensures Reversed(ms + [m]) == [m] + Reversed(ms)
  {
    if ms == [] {
      assert ([] + [m])[1..] == [];
    } else {
      assert (ms + [m])[1..] == ms[1..] + [m];
      ReversedAppend(ms[1..], m);
    }
  }

  /** The matches in text order. */
  function InOrder(found: seq<Match>): seq<Match> {
    Reversed(ByStartDescending(found))
  }

  /**
   For non-overlapping matches found in any order, the in-place right-to-left splice is the forward
   reading of the text: unmatched segments unchanged and in order, one mask per match.
   */
  lemma ScanIsForward(text: string, found: seq<Match>, mask: string -> string)
    requires NonOverlapping(found, |text|)
    ensures Ascending(InOrder(found), 0, |text|)
    ensures Spliced(text, ByStartDescending(found), mask) == Forward(text, 0, InOrder(found), mask)
  {
    SortedFacts(found, |text|);
    DescendingIsReversed(ByStartDescending(found), |text|);
    ReversedTwice(ByStartDescending(found));
    SplicedIsForward(text, 0, InOrder(found), mask);
    assert text[..0] + Forward(text, 0, InOrder(found), mask) == Forward(text, 0, InOrder(found), mask);
  }

  lemma {:induction false} DescendingUnique(a: seq<Match>, b: seq<Match>, length: nat)
    requires Descending(a, length) && Descending(b, length)
    requires forall x :: x in a <==> x in b
    ensures a == b
    decreases |a|
  {
    assert b != [] ==> b[0] in b && b[0] in a;
    if a != [] {
      assert a[0] in b;
      assert b[0] in a;
      BelowHead(a, length);
      BelowHead(b, length);
      assert a[0] == b[0];
      assert a == [a[0]] + a[1..] && b == [b[0]] + b[1..];
      forall x
        ensures x in a[1..] <==> x in b[1..]
      {
        assert x in a <==> x == a[0] || x in a[1..];
        assert x in b <==> x == b[0] || x in b[1..];
      }
      DescendingUnique(a[1..], b[1..], a[0].start);
    }
  }

  lemma {:induction false} BelowHead(ms: seq<Match>, length: nat)
    requires Descending(ms, length) && ms != []
    ensures forall x :: x in ms[1..] ==> x.start < ms[0].start
    decreases |ms|
  {
    if |ms| > 1 {
      BelowHead(ms[1..], ms[0].start);
      assert ms[1..] == [ms[1]] + ms[1..][1..];
    }
  }

  /** The sanitised text does not depend on the order in which the patterns find the matches. */
  lemma DiscoveryOrderIrrelevant(text: string, found: seq<Match>, found': seq<Match>, mask: string -> string)
    requires NonOverlapping(found, |text|) && NonOverlapping(found', |text|)
    requires forall x :: x in found <==> x in found'
    ensures Spliced(text, ByStartDescending(found), mask) == Spliced(text, ByStartDescending(found'), mask)
  {
    SortedFacts(found, |text|);
    SortedFacts(found', |text|);
    DescendingUnique(ByStartDescending(found), ByStartDescending(found'), |text|);
  }

  // ---- Undoing the redaction ----

  /** The value of a match is the text it spans, as the regex engine reports it. */
  ghost predicate Captured(ms: seq<Match>, text: string) {
    forall i :: 0 <= i < |ms| ==> ms[i].start <= ms[i].end <= |text| && ms[i].value == text[ms[i].start..ms[i].end]
  }

  /** Reads the reported values back into a sanitised text, given the matches in order. */
  function Restored(sanitized: string, from: nat, length: nat, ms: seq<Match>, mask: string -> string): string
    requires Ascending(ms, from, length)
    decreases |ms|
  {
    if ms == [] then sanitized
    else
      var m := ms[0];
      var segment := m.start - from;
      Upto(sanitized, segment) + m.value
        + Restored(From(sanitized, segment + |mask(m.entity)|), m.end, length, ms[1..], mask)
  }

  /** Nothing is lost: putting the reported values back gives the original text. */
  lemma {:induction false} RestoredIsOriginal(text: string, from: nat, ms: seq<Match>, mask: string -> string)
    requires from <= |text| && Ascending(ms, from, |text|) && Captured(ms, text)
    ensures Restored(Forward(text, from, ms, mask), from, |text|, ms, mask) == text[from..]
    decreases |ms|
  {
    if ms == [] {
    } else {
      var m := ms[0];
      var tail := Forward(text, m.end, ms[1..], mask);
      CapturedRest(ms, text);
      RestoredIsOriginal(text, m.end, ms[1..], mask);
      RestoredStep(text, from, m, mask(m.entity), tail);
      var all := text[from..m.start] + mask(m.entity) + tail;
      assert Restored(all, from, |text|, ms, mask)
          == Upto(all, m.start - from) + m.value + Restored(tail, m.end, |text|, ms[1..], mask);
    }
  }

  lemma CapturedRest(ms: seq<Match>, text: string)
    requires ms != [] && Captured(ms, text)
    ensures Captured(ms[1..], text) && ms[0].value == text[ms[0].start..ms[0].end]
  {
    assert forall i :: 0 <= i < |ms[1..]| ==> ms[1..][i] == ms[i + 1];
  }

  lemma RestoredStep(text: string, from: nat, m: Match, masked: string, tail: string)
    requires from <= m.start < m.end <= |text|
    ensures var all := text[from..m.start] + masked + tail;
      && Upto(all, m.start - from) == text[from..m.start]
      && From(all, m.start - from + |masked|) == tail
      && text[from..] == text[from..m.start] + text[m.start..m.end] + text[m.end..]
  {
  }

  // ---- Overlapping matches ----

  /** Two matches of which the first is spliced first: it starts later, or with the other and was found before it. */
  predicate SplicedInTurn(first: Match, second: Match, length: nat) {
    second.start <= first.start < first.end <= length && first.start < second.end <= length
  }

  function Last(first: Match, second: Match): nat {
    if first.end < second.end then second.end else first.end
  }

  /** What follows the mask of the second: the text after its end in the text already spliced by the first mask. */
  function Leftover(text: string, first: Match, second: Match, masked: string): string
    requires SplicedInTurn(first, second, |text|)
  {
    From(text[..first.start] + masked + text[first.end..], second.end)
  }

  lemma InTurn(first: Match, second: Match, found: seq<Match>)
    requires second.start <= first.start
    requires found == [first, second] || (found == [second, first] && second.start < first.start)
    ensures ByStartDescending(found) == [first, second]
  {
    assert found[1..] == [found[1]] && [found[1]][1..] == [];
    assert ByStartDescending([found[1]]) == [found[1]];
    assert [first] + Placed(second, []) == [first, second] && [first] + [second] == [first, second];
  }

  lemma PairSplice(text: string, first: Match, second: Match, mask: string -> string)
    requires SplicedInTurn(first, second, |text|)
    ensures Spliced(text, [first, second], mask)
         == text[..second.start] + mask(second.entity) + Leftover(text, first, second, mask(first.entity))
  {
    assert [first, second][1..] == [second] && [second][1..] == [];
    var once := Replaced(text, first, mask);
    assert Spliced(text, [first, second], mask) == Spliced(once, [second], mask) == Replaced(once, second, mask);
    assert Upto(text, first.start) == text[..first.start] && From(text, first.end) == text[first.end..];
    assert Upto(once, second.start) == text[..second.start];
  }

  /**
   The second match ends within the first mask or after it. Within it, the rest of that mask and all the
   text after the first match remain; after it, the cut falls `|masked|` minus the length of the first
   match before the end of the second.
   */
  lemma LeftoverExactly(text: string, first: Match, second: Match, masked: string)
    requires SplicedInTurn(first, second, |text|)
    ensures var into := second.end - first.start;
      Leftover(text, first, second, masked)
      == if into < |masked| then masked[into..] + text[first.end..] else From(text, first.end + into - |masked|)
  {
    var once, into := text[..first.start] + masked + text[first.end..], second.end - first.start;
    if into < |masked| {
      assert once[second.end..] == masked[into..] + text[first.end..];
    } else if second.end < |once| {
      assert once[second.end..] == text[first.end + into - |masked|..];
    } else {
      assert first.end + into - |masked| >= |text|;
    }
  }

  /** What should follow the mask of the second: the rest of the first mask, if any, and the text after both matches. */
  function Wanted(text: string, first: Match, second: Match, masked: string): string
    requires SplicedInTurn(first, second, |text|)
  {
    var into := second.end - first.start;
    (if into < |masked| then masked[into..] else "") + text[Last(first, second)..]
  }

  /** Where the cut falls for the result to be clean. */
  predicate CutIsClean(first: Match, second: Match, length: nat, size: nat)
    requires first.start < second.end
  {
    var into := second.end - first.start;
    if into < size then second.end <= first.end
    else
      var cut := first.end + into - size;
      cut == Last(first, second) || (cut > Last(first, second) == length)
  }

  /**
   For every overlapping pair, in any order of discovery: exactly when nothing matched survives and nothing
   else is lost.
   */
  lemma OverlapExactly(text: string, first: Match, second: Match, mask: string -> string, found: seq<Match>)
    requires SplicedInTurn(first, second, |text|)
    requires found == [first, second] || (found == [second, first] && second.start < first.start)
    ensures Spliced(text, ByStartDescending(found), mask)
         == text[..second.start] + mask(second.entity) + Wanted(text, first, second, mask(first.entity))
       <==> CutIsClean(first, second, |text|, |mask(first.entity)|)
  {
    var masked, head := mask(first.entity), text[..second.start] + mask(second.entity);
    InTurn(first, second, found);
    PairSplice(text, first, second, mask);
    var rest, wanted := Leftover(text, first, second, masked), Wanted(text, first, second, masked);
    SameHead(head, rest, wanted);
    assert Spliced(text, ByStartDescending(found), mask) == head + rest;
  }

  lemma SameHead(head: string, a: string, b: string)
    ensures head + a == head + b <==> a == b
  {
    assert (head + a)[|head|..] == a && (head + b)[|head|..] == b;
  }

  /** The inner match lies within the outer one and starts after it. */
  predicate Nested(outer: Match, inner: Match, length: nat) {
    outer.start < inner.start < inner.end <= outer.end <= length
  }

  /**
   A nested pair is replaced by the outer mask alone and the rest kept exactly when the inner mask has the
   length of its match, or is shorter and nothing follows that it could swallow.
   */
  lemma NestedExactly(text: string, outer: Match, inner: Match, mask: string -> string, found: seq<Match>)
    requires Nested(outer, inner, |text|) && (found == [outer, inner] || found == [inner, outer])
    ensures Spliced(text, ByStartDescending(found), mask)
         == text[..outer.start] + mask(outer.entity) + text[outer.end..]
       <==> || |mask(inner.entity)| == inner.end - inner.start
            || (outer.end == |text| && |mask(inner.entity)| < inner.end - inner.start)
  {
    var masked := mask(inner.entity);
    var rest := Leftover(text, inner, outer, masked);
    InTurn(inner, outer, found);
    PairSplice(text, inner, outer, mask);
    LeftoverExactly(text, inner, outer, masked);
    SameHead(text[..outer.start] + mask(outer.entity), rest, text[outer.end..]);
    assert |rest| == |text[outer.end..]| <==>
      || |masked| == inner.end - inner.start || (outer.end == |text| && |masked| < inner.end - inner.start);
  }

  /** A mask three characters longer than the inner match leaves the last two of the outer one in the text. */
  lemma OverlapIsNotForward()
    ensures var mask := (e: string) => "####";
      Spliced("abcdef", ByStartDescending([Match("x", "abcd", 0, 4), Match("y", "b", 1, 2)]), mask) == "#####cdef"
  {
    var mask := (e: string) => "####";
    var a, b := Match("x", "abcd", 0, 4), Match("y", "b", 1, 2);
    InTurn(b, a, [a, b]);
    PairSplice("abcdef", b, a, mask);
    LeftoverExactly("abcdef", b, a, "####");
    assert "####"[3..] == "#" && "abcdef"[2..] == "cdef";
  }
}
