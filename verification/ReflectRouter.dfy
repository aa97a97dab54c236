/**
 The text that `reflect_node` writes and `reflect_router` reads back, `agent/graph.py`. Python's
 upper-casing is a function parameter of which only the ASCII part is known: characters outside it
 may become ASCII letters (the dotless i becomes `I`).
 */
module ReflectRouter {
  import opened Sequences

  // ---- Substrings ----

  /** Python's `w in s`. */
  ghost predicate Contains(s: string, w: string) {
    exists i: nat :: OccursAt(s, w, i)
  }

  lemma OccursLater(a: string, b: string, w: string, i: nat)
    ensures OccursAt(a + b, w, |a| + i) <==> OccursAt(b, w, i)
  {
    if i + |w| <= |b| { assert (a + b)[|a| + i..|a| + i + |w|] == b[i..i + |w|]; }
  }

  lemma OccursEarlier(a: string, b: string, w: string, i: nat)
    requires i + |w| <= |a|
    ensures OccursAt(a + b, w, i) <==> OccursAt(a, w, i)
  {
    assert (a + b)[i..i + |w|] == a[i..i + |w|];
  }

  lemma InsideWord(s: string, w: string, i: nat, p: nat)
    requires OccursAt(s, w, i) && i <= p < i + |w|
    ensures s[p] in w
  {
    assert s[p] == s[i..i + |w|][p - i];
  }

  /** No occurrence straddles a character outside `w`. */
  lemma ContainsBroken(a: string, c: char, b: string, w: string)
    requires c !in w && w != ""
    ensures Contains(a + [c] + b, w) <==> Contains(a, w) || Contains(b, w)
  {
    var s := a + [c] + b;
    assert s == a + ([c] + b);
    if i: nat :| OccursAt(a, w, i) { OccursEarlier(a, [c] + b, w, i); }
    if i: nat :| OccursAt(b, w, i) { OccursLater(a + [c], b, w, i); }
    if i: nat :| OccursAt(s, w, i) {
      if i + |w| <= |a| {
        OccursEarlier(a, [c] + b, w, i);
      } else {
        if i <= |a| { InsideWord(s, w, i, |a|); }
        OccursLater(a + [c], b, w, i - |a| - 1);
      }
    }
  }

  // ---- Upper case ----

  predicate Ascii(c: char) {
    c as int < 128
  }

  function Capital(c: char): char {
    if 'a' <= c <= 'z' then (c as int - 32) as char else c
  }

  ghost predicate AsciiUpper(upper: char -> string) {
    forall c :: Ascii(c) ==> upper(c) == [Capital(c)]
  }

  /** `str.upper`. */
  function Upper(upper: char -> string, s: string): string {
    if s == "" then "" else upper(s[0]) + Upper(upper, s[1..])
  }

  lemma {:induction false} UpperConcat(upper: char -> string, a: string, b: string)
    ensures Upper(upper, a + b) == Upper(upper, a) + Upper(upper, b)
  {
    if a == "" {
      assert a + b == b;
    } else {
      assert (a + b)[1..] == a[1..] + b;
      UpperConcat(upper, a[1..], b);
    }
  }

  lemma {:induction false} UpperLacks(upper: char -> string, s: string, c: char)
    requires AsciiUpper(upper)
    requires forall i :: 0 <= i < |s| ==> Ascii(s[i]) && Capital(s[i]) != c
    ensures c !in Upper(upper, s)
  {
    if s == "" {
    } else {
      assert forall i :: 0 <= i < |s[1..]| ==> s[1..][i] == s[i + 1];
      UpperLacks(upper, s[1..], c);
      assert upper(s[0]) == [Capital(s[0])];
    }
  }

  // ---- What the router looks for ----

  const FAIL := "FAIL"

  ghost predicate Mentions(upper: char -> string, s: string) {
    Contains(Upper(upper, s), FAIL)
  }

  /** A label without one of the letters cannot hold the word. */
  lemma Quiet(upper: char -> string, title: string, c: char)
    requires AsciiUpper(upper) && c in FAIL
    requires forall i :: 0 <= i < |title| ==> Ascii(title[i]) && Capital(title[i]) != c
    ensures !Mentions(upper, title)
  {
    UpperLacks(upper, title, c);
  }

  lemma MentionsBroken(upper: char -> string, a: string, c: char, b: string)
    requires AsciiUpper(upper) && c in " \n,"
    ensures Mentions(upper, a + [c] + b) <==> Mentions(upper, a) || Mentions(upper, b)
  {
    UpperConcat(upper, a + [c], b);
    UpperConcat(upper, a, [c]);
    assert upper(c) == [c];
    assert Upper(upper, [c]) == [c] by { assert [c][1..] == ""; }
    ContainsBroken(Upper(upper, a), c, Upper(upper, b), FAIL);
  }

  // ---- The reflection message ----

  /** What the format `.2f` makes of a score between 0 and 1. */
  type Number = s: string | forall i :: 0 <= i < |s| ==> s[i] == '.' || '0' <= s[i] <= '9' witness "0.00"

  datatype Verdict = Verdict(isSuccessful: bool, score: Number, critique: string, missing: seq<string>,
                             steps: seq<string>)

  /** `sep.join(items)`, each item after `bullet`. */
  function Join(sep: string, bullet: string, items: seq<string>): string {
    if items == [] then ""
    else if |items| == 1 then bullet + items[0]
    else bullet + items[0] + sep + Join(sep, bullet, items[1..])
  }

  function Line(title: string, value: string, rest: string): string {
    title + " " + value + "\n" + rest
  }

  function Corrections(steps: seq<string>): string {
    if steps == [] then "" else "Correction Steps:" + "\n" + Join("\n", "- ", steps)
  }

  function Missing(missing: seq<string>, rest: string): string {
    if missing == [] then rest else Line("Missing Information:", Join(", ", "", missing), rest)
  }

  function Critique(v: Verdict): string {
    Line("Critique:", v.critique, Missing(v.missing, Corrections(v.steps)))
  }

  function Score(v: Verdict): string {
    Line("Quality Score:", v.score, Critique(v))
  }

  function Word(isSuccessful: bool): string {
    if isSuccessful then "PASS" else "FAIL"
  }

  function Status(v: Verdict): string {
    Line("Status:", Word(v.isSuccessful), Score(v))
  }

  /** The content of the message that `reflect_node` appends. */
  function Content(v: Verdict): string {
    "Reflection Result:" + "\n" + Status(v)
  }

  function Commas(items: seq<string>): string {
    if items == [] then ""
    else if |items| == 1 then items[0]
    else Commas(items[..|items| - 1]) + ", " + items[|items| - 1]
  }

  function Bullets(items: seq<string>): string {
    if items == [] then ""
    else if |items| == 1 then "- " + items[0]
    else Bullets(items[..|items| - 1]) + "\n- " + items[|items| - 1]
  }

  lemma {:induction false} JoinGrows(sep: string, bullet: string, items: seq<string>, item: string)
    requires items != []
    ensures Join(sep, bullet, items + [item]) == Join(sep, bullet, items) + sep + bullet + item
  {
    assert (items + [item])[1..] == items[1..] + [item];
    if |items| > 1 {
      JoinGrows(sep, bullet, items[1..], item);
    } else {
      assert items[1..] + [item] == [item];
    }
  }

  lemma {:induction false} JoinsRead(items: seq<string>)
    ensures Join(", ", "", items) == Commas(items) && Join("\n", "- ", items) == Bullets(items)
  {
    if |items| > 1 {
      var n := |items| - 1;
      JoinsRead(items[..n]);
      JoinGrows(", ", "", items[..n], items[n]);
      JoinGrows("\n", "- ", items[..n], items[n]);
      assert items[..n] + [items[n]] == items;
    }
  }

  /** What follows the critique. */
  function Ending(v: Verdict): string {
    (if v.missing == [] then "" else "Missing Information: " + Commas(v.missing) + "\n")
    + (if v.steps == [] then "" else "Correction Steps:\n" + Bullets(v.steps))
  }

  lemma EndingReads(v: Verdict)
    ensures Missing(v.missing, Corrections(v.steps)) == Ending(v)
  {
    JoinsRead(v.missing);
    JoinsRead(v.steps);
    assert "Missing Information:" + " " == "Missing Information: ";
    assert "Correction Steps:" + "\n" == "Correction Steps:\n";
  }

  /** The whole text, line by line. */
  lemma ContentReads(v: Verdict)
    ensures Content(v)
      == "Reflection Result:\n"
         + ("Status: " + (if v.isSuccessful then "PASS" else "FAIL") + "\n"
            + ("Quality Score: " + v.score + "\n"
               + ("Critique: " + v.critique + "\n" + Ending(v))))
  {
    EndingReads(v);
    assert "Critique:" + " " == "Critique: " && "Quality Score:" + " " == "Quality Score: ";
    assert "Status:" + " " == "Status: " && "Reflection Result:" + "\n" == "Reflection Result:\n";
  }

  // ---- Where the word can come from ----

  lemma LineMentions(upper: char -> string, title: string, value: string, rest: string)
    requires AsciiUpper(upper)
    ensures Mentions(upper, Line(title, value, rest))
       <==> Mentions(upper, title) || Mentions(upper, value) || Mentions(upper, rest)
  {
    MentionsBroken(upper, title + " " + value, '\n', rest);
    MentionsBroken(upper, title, ' ', value);
  }

  ghost predicate AnyMentions(upper: char -> string, items: seq<string>) {
    exists i :: 0 <= i < |items| && Mentions(upper, items[i])
  }

  lemma BulletMentions(upper: char -> string, bullet: string, item: string)
    requires AsciiUpper(upper) && (bullet == "" || bullet == "- ")
    ensures Mentions(upper, bullet + item) <==> Mentions(upper, item)
  {
    if bullet == "" {
      assert bullet + item == item;
    } else {
      Quiet(upper, "-", 'F');
      MentionsBroken(upper, "-", ' ', item);
      assert "-" + [' '] + item == bullet + item;
    }
  }

  lemma SeparatorMentions(upper: char -> string, a: string, sep: string, b: string)
    requires AsciiUpper(upper) && (sep == ", " || sep == "\n")
    ensures Mentions(upper, a + sep + b) <==> Mentions(upper, a) || Mentions(upper, b)
  {
    Quiet(upper, "", 'F');
    if sep == "\n" {
      MentionsBroken(upper, a, '\n', b);
    } else {
      MentionsBroken(upper, a, ',', " " + b);
      MentionsBroken(upper, "", ' ', b);
      assert a + [','] + (" " + b) == a + sep + b;
      assert "" + [' '] + b == " " + b;
    }
  }

  lemma {:induction false} JoinMentions(upper: char -> string, sep: string, bullet: string, items: seq<string>)
    requires AsciiUpper(upper) && (sep == ", " || sep == "\n") && (bullet == "" || bullet == "- ")
    ensures Mentions(upper, Join(sep, bullet, items)) <==> AnyMentions(upper, items)
  {
    if items == [] {
      Quiet(upper, "", 'F');
    } else {
      BulletMentions(upper, bullet, items[0]);
      if |items| > 1 {
        SeparatorMentions(upper, bullet + items[0], sep, Join(sep, bullet, items[1..]));
        JoinMentions(upper, sep, bullet, items[1..]);
      }
    }
  }

  lemma CorrectionsMention(upper: char -> string, steps: seq<string>)
    requires AsciiUpper(upper)
    ensures Mentions(upper, Corrections(steps)) <==> AnyMentions(upper, steps)
  {
    JoinMentions(upper, "\n", "- ", steps);
    if steps != [] {
      Quiet(upper, "Correction Steps:", 'F');
      SeparatorMentions(upper, "Correction Steps:", "\n", Join("\n", "- ", steps));
    }
  }

  lemma MissingMentions(upper: char -> string, missing: seq<string>, rest: string)
    requires AsciiUpper(upper)
    ensures Mentions(upper, Missing(missing, rest)) <==> AnyMentions(upper, missing) || Mentions(upper, rest)
  {
    if missing != [] {
      Quiet(upper, "Missing Information:", 'L');
      JoinMentions(upper, ", ", "", missing);
      LineMentions(upper, "Missing Information:", Join(", ", "", missing), rest);
    }
  }

  lemma WordMentions(upper: char -> string, isSuccessful: bool)
    requires AsciiUpper(upper)
    ensures Mentions(upper, Word(isSuccessful)) <==> !isSuccessful
  {
    Quiet(upper, "PASS", 'F');
    assert Upper(upper, "FAIL") == FAIL by {
      assert "FAIL"[1..] == "AIL" && "AIL"[1..] == "IL" && "IL"[1..] == "L" && "L"[1..] == "";
      assert forall c :: c in "FAIL" ==> upper(c) == [c];
    }
    assert OccursAt(FAIL, FAIL, 0);
  }

  lemma CritiqueMentions(upper: char -> string, v: Verdict)
    requires AsciiUpper(upper)
    ensures Mentions(upper, Critique(v)) <==>
            Mentions(upper, v.critique) || AnyMentions(upper, v.missing) || AnyMentions(upper, v.steps)
  {
    CorrectionsMention(upper, v.steps);
    MissingMentions(upper, v.missing, Corrections(v.steps));
    Quiet(upper, "Critique:", 'F');
    LineMentions(upper, "Critique:", v.critique, Missing(v.missing, Corrections(v.steps)));
  }

  lemma ScoreMentions(upper: char -> string, v: Verdict)
    requires AsciiUpper(upper)
    ensures Mentions(upper, Score(v)) <==> Mentions(upper, Critique(v))
  {
    Quiet(upper, v.score, 'F');
    Quiet(upper, "Quality Score:", 'F');
    LineMentions(upper, "Quality Score:", v.score, Critique(v));
  }

  lemma StatusMentions(upper: char -> string, v: Verdict)
    requires AsciiUpper(upper)
    ensures Mentions(upper, Status(v)) <==> !v.isSuccessful || Mentions(upper, Score(v))
  {
    Quiet(upper, "Status:", 'F');
    WordMentions(upper, v.isSuccessful);
    LineMentions(upper, "Status:", Word(v.isSuccessful), Score(v));
  }

  lemma ContentMentions(upper: char -> string, v: Verdict)
    requires AsciiUpper(upper)
    ensures Mentions(upper, Content(v)) <==> Mentions(upper, Status(v))
  {
    Quiet(upper, "Reflection Result:", 'A');
    SeparatorMentions(upper, "Reflection Result:", "\n", Status(v));
  }

  /**
   What makes the router read failure: a failed reflection, or any field of a successful one that
   spells the word in some case.
   */
  lemma FailureIsRead(upper: char -> string, v: Verdict)
    requires AsciiUpper(upper)
    ensures Mentions(upper, Content(v)) <==>
            || !v.isSuccessful || Mentions(upper, v.critique)
            || AnyMentions(upper, v.missing) || AnyMentions(upper, v.steps)
  {
    ContentMentions(upper, v);
    StatusMentions(upper, v);
    ScoreMentions(upper, v);
    CritiqueMentions(upper, v);
  }

  /** The verdict `AgentReflector.reflect` falls back to when the reflection itself fails. */
  function Fallback(error: string): Verdict {
    Verdict(true, "1.00", "Reflection failed with error: " + error + ". Defaulting to success.", [], [])
  }

  lemma FailedMentions(upper: char -> string)
    requires AsciiUpper(upper)
    ensures Mentions(upper, "failed")
  {
    assert "fail"[1..] == "ail" && "ail"[1..] == "il" && "il"[1..] == "l" && "l"[1..] == "";
    assert forall c :: c in "fail" ==> upper(c) == [Capital(c)];
    assert Upper(upper, "fail") == FAIL;
    assert "failed" == "fail" + "ed";
    UpperConcat(upper, "fail", "ed");
    assert OccursAt(Upper(upper, "failed"), FAIL, 0);
  }

  /** Meant as a success, it is read as a failure: its own critique says "failed". */
  lemma FallbackReadsAsFailure(upper: char -> string, error: string)
    requires AsciiUpper(upper)
    ensures Fallback(error).isSuccessful && Mentions(upper, Content(Fallback(error)))
  {
    var rest := "with error: " + error + ". Defaulting to success.";
    assert Fallback(error).critique == "Reflection" + [' '] + ("failed" + [' '] + rest);
    MentionsBroken(upper, "Reflection", ' ', "failed" + [' '] + rest);
    MentionsBroken(upper, "failed", ' ', rest);
    FailedMentions(upper);
    FailureIsRead(upper, Fallback(error));
  }
}
