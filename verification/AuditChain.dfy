/**
 The hash chain of `governance/audit.py`. SHA-256 in hexadecimal is a function parameter. `details`
 is the text of `json.dumps(details, sort_keys=True)`, which determines the value dumped.
 */
module AuditChain {
  import opened Wrappers

  type Hash = string -> string

  // ---- Quoting in JSON texts ----

  datatype Quote = Outside | Inside | Escaped | Broken

  /** A bar or a backslash can only stand inside a string. */
  function After(q: Quote, c: char): Quote {
    match q
    case Outside => if c == '"' then Inside else if c == '|' || c == '\\' then Broken else Outside
    case Inside => if c == '"' then Outside else if c == '\\' then Escaped else Inside
    case Escaped => Inside
    case Broken => Broken
  }

  function Scanned(q: Quote, s: string): Quote
    decreases |s|
  {
    if s == "" then q else Scanned(After(q, s[0]), s[1..])
  }

  /** What every text that `json.dumps` writes satisfies. */
  predicate JsonText(s: string) {
    Scanned(Outside, s) == Outside
  }

  type Details = s: string | JsonText(s) witness "{}"

  datatype Record = Record(index: nat, timestamp: string, action: string, actor: string,
                           target: Option<string>, details: Details, previousHash: string, hash: string)

  /**
   One line of a log file. `Loose` is an object that `verify_chain` reads as the given record although it
   lacks a field, or has one of another type, so that `AuditRecord` rejects it.
   */
  datatype Line = Blank | Malformed | Loose(record: Record) | Entry(record: Record) {

    predicate HasRecord() {
      Loose? || Entry?
    }
  }

  const HASH_LENGTH: nat := 64

  function Zeros(n: nat): string {
    if n == 0 then "" else Zeros(n - 1) + "0"
  }

  const GENESIS := Zeros(HASH_LENGTH)

  // ---- The hashed text ----

  function Digit(d: nat): char
    requires d < 10
  {
    "0123456789"[d]
  }

  function Decimal(n: nat): string {
    if n < 10 then [Digit(n)] else Decimal(n / 10) + [Digit(n % 10)]
  }

  /** How Python formats the optional target. */
  function TargetText(target: Option<string>): string {
    if target.Some? then target.value else "None"
  }

  function Bar(head: string, tail: string): string {
    head + "|" + tail
  }

  function Data(r: Record): string {
    Bar(Decimal(r.index), Bar(r.timestamp, Bar(r.action, Bar(r.actor, Bar(TargetText(r.target),
      Bar(r.details, r.previousHash))))))
  }

  function HashOf(r: Record, hash: Hash): string {
    hash(Data(r))
  }

  /** The text, in its order. */
  lemma DataReads(r: Record)
    ensures Data(r) == Decimal(r.index) + "|" + r.timestamp + "|" + r.action + "|" + r.actor + "|"
                       + TargetText(r.target) + "|" + r.details + "|" + r.previousHash
  {
    var head := Decimal(r.index) + "|";
    assert Data(r) == head + Bar(r.timestamp, Bar(r.action, Bar(r.actor, Bar(TargetText(r.target),
      Bar(r.details, r.previousHash)))));
  }

  /** The number that a decimal numeral denotes. */
  function Number(s: string): int {
    if s == "" then 0 else 10 * Number(s[..|s| - 1]) + (s[|s| - 1] as int - '0' as int)
  }

  /** The index is written without leading zeros, and reads back as itself. */
  lemma {:induction false} DecimalReads(n: nat)
    ensures Number(Decimal(n)) == n && Decimal(n) != "" && (Decimal(n)[0] == '0' ==> Decimal(n) == "0")
    ensures forall i :: 0 <= i < |Decimal(n)| ==> '0' <= Decimal(n)[i] <= '9'
  {
    if n >= 10 {
      DecimalReads(n / 10);
      assert Decimal(n)[..|Decimal(n)| - 1] == Decimal(n / 10);
    } else {
      assert Decimal(n)[..0] == "";
    }
  }

  // ---- What an accepted file is ----

  function Records(lines: seq<Line>): seq<Record> {
    if lines == [] then []
    else
      var last := lines[|lines| - 1];
      Records(lines[..|lines| - 1]) + (if last.HasRecord() then [last.record] else [])
  }

  ghost predicate Chained(rs: seq<Record>, hash: Hash) {
    forall i :: 0 <= i < |rs| ==> Link(rs, hash, i)
  }

  predicate Link(rs: seq<Record>, hash: Hash, i: nat)
    requires i < |rs|
  {
    && rs[i].index == i
    && rs[i].previousHash == (if i == 0 then GENESIS else rs[i - 1].hash)
    && rs[i].hash == HashOf(rs[i], hash)
  }

  ghost predicate Accepted(lines: seq<Line>, hash: Hash) {
    (forall i :: 0 <= i < |lines| ==> !lines[i].Malformed?) && Chained(Records(lines), hash)
  }

  lemma {:induction false} RecordsAppend(a: seq<Line>, b: seq<Line>)
    ensures Records(a + b) == Records(a) + Records(b)
  {
    if b == [] {
      assert a + b == a;
    } else {
      var n := |b| - 1;
      assert (a + b)[..|a + b| - 1] == a + b[..n];
      RecordsAppend(a, b[..n]);
    }
  }

  lemma OneMoreLine(lines: seq<Line>, line: Line)
    ensures Records(lines + [line]) == Records(lines) + if line.HasRecord() then [line.record] else []
  {
    assert (lines + [line])[..|lines|] == lines;
  }

  /** The three checks of one record. */
  method CheckEntry(entry: Record, expectedIndex: nat, expectedPreviousHash: string, hash: Hash) returns (fits: bool)
    ensures fits <==> entry.index == expectedIndex && entry.previousHash == expectedPreviousHash
                      && entry.hash == HashOf(entry, hash)
  {
    if entry.index != expectedIndex {
      return false;
    }
    if entry.previousHash != expectedPreviousHash {
      return false;
    }
    var calculated := HashOf(entry, hash);
    fits := entry.hash == calculated;
  }

  function LastHash(rs: seq<Record>): string {
    if rs == [] then GENESIS else rs[|rs| - 1].hash
  }

  /** `verify_chain`: accepts exactly the files whose records form a chain from the genesis hash. */
  method VerifyChain(lines: seq<Line>, hash: Hash) returns (ok: bool)
    ensures ok <==> Accepted(lines, hash)
  {
    var expectedPreviousHash := GENESIS;
    var expectedIndex := 0;
    for i := 0 to |lines|
      invariant Accepted(lines[..i], hash)
      invariant expectedIndex == |Records(lines[..i])| && expectedPreviousHash == LastHash(Records(lines[..i]))
    {
      LineDecides(lines, i, hash);
      LineCounts(lines, i);
      match lines[i] {
        case Blank =>
        case Malformed => return false;
        case _ =>
          var entry := lines[i].record;
          var fits := CheckEntry(entry, expectedIndex, expectedPreviousHash, hash);
          if !fits {
            return false;
          }
          expectedPreviousHash := entry.hash;
          expectedIndex := expectedIndex + 1;
      }
    }
    assert lines[..|lines|] == lines;
    ok := true;
  }

  /** Where one line leaves the index and the hash that `verify_chain` expects next. */
  lemma LineCounts(lines: seq<Line>, i: nat)
    requires i < |lines|
    ensures var before, after, line := Records(lines[..i]), Records(lines[..i + 1]), lines[i];
      && |after| == |before| + (if line.HasRecord() then 1 else 0)
      && LastHash(after) == if line.HasRecord() then line.record.hash else LastHash(before)
  {
    RecordsUpTo(lines, i);
  }

  predicate LineFits(lines: seq<Line>, i: nat, hash: Hash)
    requires i < |lines|
  {
    match lines[i]
    case Blank => true
    case Malformed => false
    case _ => Fits(Records(lines[..i]), lines[i].record, hash)
  }

  /** Each line alone decides whether the accepted prefix grows or the file is rejected. */
  lemma LineDecides(lines: seq<Line>, i: nat, hash: Hash)
    requires i < |lines| && Accepted(lines[..i], hash)
    ensures LineFits(lines, i, hash) ==> Accepted(lines[..i + 1], hash)
    ensures !LineFits(lines, i, hash) ==> !Accepted(lines, hash)
  {
    RecordsUpTo(lines, i);
    assert forall j :: 0 <= j <= i ==> lines[..i + 1][j] == if j < i then lines[..i][j] else lines[i];
    match lines[i] {
      case Blank => assert Records(lines[..i]) + [] == Records(lines[..i]);
      case Malformed =>
      case _ =>
        var r := lines[i].record;
        AcceptedFits(lines, i, r, hash);
        if Fits(Records(lines[..i]), r, hash) { ChainGrows(Records(lines[..i]), r, hash); }
    }
  }

  /** The record continues the chain. */
  predicate Fits(rs: seq<Record>, r: Record, hash: Hash) {
    && r.index == |rs| && r.previousHash == LastHash(rs)
    && r.hash == HashOf(r, hash)
  }

  lemma RecordsUpTo(lines: seq<Line>, i: nat)
    requires i < |lines|
    ensures Records(lines[..i + 1]) == Records(lines[..i]) + if lines[i].HasRecord() then [lines[i].record] else []
    ensures Records(lines[..i + 1]) <= Records(lines)
  {
    OneMoreLine(lines[..i], lines[i]);
    assert lines[..i + 1] == lines[..i] + [lines[i]];
    RecordsOfPrefix(lines, i + 1);
  }

  lemma RecordsOfPrefix(lines: seq<Line>, n: nat)
    requires n <= |lines|
    ensures Records(lines[..n]) <= Records(lines)
  {
    assert lines == lines[..n] + lines[n..];
    RecordsAppend(lines[..n], lines[n..]);
  }

  lemma AcceptedFits(lines: seq<Line>, i: nat, r: Record, hash: Hash)
    requires i < |lines| && lines[i].HasRecord() && lines[i].record == r && Chained(Records(lines[..i]), hash)
    ensures Accepted(lines, hash) ==> Fits(Records(lines[..i]), r, hash)
  {
    RecordsUpTo(lines, i);
    var done, all := Records(lines[..i]), Records(lines);
    var n := |done|;
    assert all[n] == r && (n > 0 ==> all[n - 1] == done[n - 1]);
    assert Chained(all, hash) ==> Link(all, hash, n);
  }

  lemma ChainGrows(rs: seq<Record>, r: Record, hash: Hash)
    requires Chained(rs, hash) && Fits(rs, r, hash)
    ensures Chained(rs + [r], hash)
  {
    forall i | 0 <= i < |rs + [r]|
      ensures Link(rs + [r], hash, i)
    {
      if i < |rs| { assert Link(rs, hash, i); }
    }
  }

  /** Every prefix of an accepted file is accepted: cutting records off the end goes unnoticed. */
  lemma PrefixAccepted(lines: seq<Line>, n: nat, hash: Hash)
    requires Accepted(lines, hash) && n <= |lines|
    ensures Accepted(lines[..n], hash)
  {
    RecordsOfPrefix(lines, n);
    var some, all := Records(lines[..n]), Records(lines);
    forall i | 0 <= i < |some|
      ensures Link(some, hash, i)
    {
      assert Link(all, hash, i);
    }
  }

  // ---- Appending ----

  /** `_get_last_record`: None without records, or when `AuditRecord` rejects the last line that is not blank. */
  function LastRecord(lines: seq<Line>): Option<Record> {
    if lines == [] then None
    else
      match lines[|lines| - 1]
      case Blank => LastRecord(lines[..|lines| - 1])
      case Malformed => None
      case Loose(_) => None
      case Entry(r) => Some(r)
  }

  /** The last line that is not blank is an object that `AuditRecord` rejects. */
  predicate EndsLoose(lines: seq<Line>) {
    lines != []
    && var last := lines[|lines| - 1]; last.Loose? || (last.Blank? && EndsLoose(lines[..|lines| - 1]))
  }

  lemma {:induction false} LastOfRecords(lines: seq<Line>)
    requires forall i :: 0 <= i < |lines| ==> !lines[i].Malformed?
    ensures var rs := Records(lines);
      LastRecord(lines) == if rs == [] || EndsLoose(lines) then None else Some(rs[|rs| - 1])
    ensures EndsLoose(lines) ==> Records(lines) != []
  {
    if lines == [] {
    } else {
      LastOfRecords(lines[..|lines| - 1]);
    }
  }

  /** It is the record of the last line that is not blank, if that line is a record. */
  lemma {:induction false} LastRecordReads(lines: seq<Line>) returns (n: nat)
    ensures n <= |lines| && (forall i :: n <= i < |lines| ==> lines[i].Blank?) && (n > 0 ==> !lines[n - 1].Blank?)
    ensures LastRecord(lines) == if n > 0 && lines[n - 1].Entry? then Some(lines[n - 1].record) else None
  {
    n := |lines|;
    if lines != [] && lines[n - 1].Blank? {
      n := LastRecordReads(lines[..n - 1]);
    }
  }

  lemma StartsOver(rs: seq<Record>, r: Record, hash: Hash)
    requires rs != [] && r.index == 0
    ensures !Chained(rs + [r], hash)
  {
    var all := rs + [r];
    assert all[|rs|] == r;
    assert Chained(all, hash) ==> Link(all, hash, |rs|);
  }

  class AuditLogger {
    const hash: Hash
    // One file per date.
    var files: map<string, seq<Line>>

    function File(date: string): seq<Line>
      reads this
    {
      if date in files then files[date] else []
    }

    constructor (hash: Hash)
      ensures this.hash == hash && files == map[]
    {
      this.hash := hash;
      files := map[];
    }

    /**
     `log_action`: appends one record carrying the given fields, numbered and chained on from the last record
     read, and no other file changes. A rejected file stays rejected; an accepted one stays accepted exactly
     unless it ends in an object that `AuditRecord` rejects: then the numbering starts over.
     */
    method LogAction(date: string, timestamp: string, actor: string, action: string, details: Details,
                     target: Option<string>) returns (r: Record)
      modifies this
      ensures files == old(files)[date := old(File(date)) + [Entry(r)]]
      ensures r.timestamp == timestamp && r.actor == actor && r.action == action
        && r.details == details && r.target == target
      ensures var last := LastRecord(old(File(date)));
        && r.index == (if last.Some? then last.value.index + 1 else 0)
        && r.previousHash == (if last.Some? then last.value.hash else GENESIS)
      ensures r.hash == hash(Decimal(r.index) + "|" + timestamp + "|" + action + "|" + actor + "|" + TargetText(target)
                             + "|" + details + "|" + r.previousHash)
      ensures Accepted(File(date), hash) <==> old(Accepted(File(date), hash)) && !old(EndsLoose(File(date)))
    {
      var lines := File(date);
      var last := LastRecord(lines);
      var index := if last.Some? then last.value.index + 1 else 0;
      var previousHash := if last.Some? then last.value.hash else GENESIS;
      var entryData := Record(index, timestamp, action, actor, target, details, previousHash, "");
      r := entryData.(hash := HashOf(entryData, hash));
      assert Data(r) == Data(entryData);
      DataReads(r);
      OneMoreLine(lines, Entry(r));
      files := files[date := lines + [Entry(r)]];
      if Accepted(lines, hash) {
        LastOfRecords(lines);
        if EndsLoose(lines) {
          StartsOver(Records(lines), r, hash);
        } else {
          if Records(lines) != [] { assert Link(Records(lines), hash, |Records(lines)| - 1); }
          ChainGrows(Records(lines), r, hash);
        }
      }
      if Accepted(File(date), hash) {
        PrefixAccepted(File(date), |lines|, hash);
        assert File(date)[..|lines|] == lines;
      }
    }
  }

  // ---- The hashed text determines the record ----

  /** The fields in which a bar would be ambiguous hold none, and no target reads as Python's None. */
  ghost predicate Unambiguous(r: Record) {
    && NoBar(r.timestamp) && NoBar(r.action) && NoBar(r.actor) && NoBar(TargetText(r.target))
    && r.target != Some("None")
    && |r.previousHash| == HASH_LENGTH
  }

  ghost predicate NoBar(s: string) {
    forall i :: 0 <= i < |s| ==> s[i] != '|'
  }

  lemma {:induction false} BarInjective(a: string, s: string, b: string, t: string)
    requires NoBar(a) && NoBar(b) && Bar(a, s) == Bar(b, t)
    ensures a == b && s == t
  {
    var x, y := Bar(a, s), Bar(b, t);
    assert x[0] == (if a == "" then '|' else a[0]) && y[0] == (if b == "" then '|' else b[0]);
    if a == "" {
      assert s == x[1..] && t == y[1..];
    } else {
      assert x[1..] == Bar(a[1..], s) && y[1..] == Bar(b[1..], t);
      BarInjective(a[1..], s, b[1..], t);
      assert a == [a[0]] + a[1..] && b == [b[0]] + b[1..];
    }
  }

  lemma LastBarInjective(a: string, s: string, b: string, t: string)
    requires |s| == |t| && Bar(a, s) == Bar(b, t)
    ensures a == b && s == t
  {
    var x, y := Bar(a, s), Bar(b, t);
    assert |a| == |b|;
    assert a == x[..|a|] && b == y[..|b|];
    assert s == x[|a| + 1..] && t == y[|b| + 1..];
  }

  lemma {:induction false} DecimalNoBar(n: nat)
    ensures NoBar(Decimal(n)) && Decimal(n) != ""
  {
    if n >= 10 {
      DecimalNoBar(n / 10);
    }
  }

  lemma {:induction false} DecimalInjective(m: nat, n: nat)
    requires Decimal(m) == Decimal(n)
    ensures m == n
  {
    var x, y := Decimal(m), Decimal(n);
    assert x[|x| - 1] == y[|y| - 1];
    assert x[|x| - 1] == Digit(m % 10) && y[|y| - 1] == Digit(n % 10);
    if m >= 10 { DecimalNoBar(m / 10); }
    if n >= 10 { DecimalNoBar(n / 10); }
    if m >= 10 && n >= 10 {
      assert x[..|x| - 1] == Decimal(m / 10) && y[..|y| - 1] == Decimal(n / 10);
      DecimalInjective(m / 10, n / 10);
    }
  }

  predicate SameIfHashed(r: Record, q: Record, hash: Hash) {
    HashOf(r, hash) == HashOf(q, hash) ==> Data(r) == Data(q)
  }

  /** No text hashed in one file collides with another text hashed in the other. */
  ghost predicate CollisionFree(hash: Hash, rs: seq<Record>, qs: seq<Record>) {
    forall i, j :: 0 <= i < |rs| && 0 <= j < |qs| ==> SameIfHashed(rs[i], qs[j], hash)
  }

  ghost predicate AllUnambiguous(rs: seq<Record>) {
    forall i :: 0 <= i < |rs| ==> Unambiguous(rs[i])
  }

  // ---- Exactly which records are ambiguous ----

  /** Another record, hashes of the same length, that hashes the same text to the same hash. */
  ghost predicate Doubles(q: Record, r: Record) {
    q != r && |q.previousHash| == |r.previousHash| && q.hash == r.hash && Data(q) == Data(r)
  }

  ghost predicate BarInField(r: Record) {
    !NoBar(r.timestamp) || !NoBar(r.action) || !NoBar(r.actor) || !NoBar(TargetText(r.target))
  }

  ghost predicate Ambiguous(r: Record) {
    BarInField(r) || TargetText(r.target) == "None"
  }

  lemma BarMoves(a: string, b: string, c: string)
    ensures Bar(Bar(a, b), c) == Bar(a, Bar(b, c))
  {
  }

  lemma CutAtBar(s: string) returns (a: string, b: string)
    requires !NoBar(s)
    ensures s == Bar(a, b) && a != s
  {
    var i :| 0 <= i < |s| && s[i] == '|';
    a, b := s[..i], s[i + 1..];
  }

  /** A bar inside a field can be read as the end of that field. */
  lemma BarIsAmbiguous(r: Record) returns (q: Record)
    requires BarInField(r)
    ensures Doubles(q, r)
  {
    var tail := Bar(r.details, r.previousHash);
    var target := TargetText(r.target);
    if !NoBar(r.timestamp) {
      var a, b := CutAtBar(r.timestamp);
      q := r.(timestamp := a, action := Bar(b, r.action));
      BarMoves(a, b, Bar(r.action, Bar(r.actor, Bar(target, tail))));
      BarMoves(b, r.action, Bar(r.actor, Bar(target, tail)));
    } else if !NoBar(r.action) {
      var a, b := CutAtBar(r.action);
      q := r.(action := a, actor := Bar(b, r.actor));
      BarMoves(a, b, Bar(r.actor, Bar(target, tail)));
      BarMoves(b, r.actor, Bar(target, tail));
    } else if !NoBar(r.actor) {
      var a, b := CutAtBar(r.actor);
      q := r.(actor := a, target := Some(Bar(b, target)));
      BarMoves(a, b, Bar(target, tail));
      BarMoves(b, target, tail);
    } else {
      var a, b := CutAtBar(target);
      q := r.(actor := Bar(r.actor, a), target := Some(b));
      BarMoves(r.actor, a, Bar(b, tail));
      BarMoves(a, b, tail);
      assert |q.actor| > |r.actor|;
    }
  }

  /** A missing target and one called `None` hash the same text. */
  lemma NoneTargetIsAmbiguous(r: Record)
    requires TargetText(r.target) == "None"
    ensures Doubles(r.(target := if r.target.None? then Some("None") else None), r)
  {
  }

  function Bars(s: string): nat {
    if s == "" then 0 else (if s[0] == '|' then 1 else 0) + Bars(s[1..])
  }

  lemma {:induction false} BarsConcat(a: string, b: string)
    ensures Bars(a + b) == Bars(a) + Bars(b)
  {
    if a == "" {
      assert a + b == b;
    } else {
      assert (a + b)[1..] == a[1..] + b;
      BarsConcat(a[1..], b);
    }
  }

  lemma BarsOfBar(a: string, b: string)
    ensures Bars(Bar(a, b)) == Bars(a) + 1 + Bars(b)
  {
    BarsConcat(a + "|", b);
    BarsConcat(a, "|");
  }

  lemma {:induction false} NoBarsExactly(s: string)
    ensures Bars(s) == 0 <==> NoBar(s)
  {
    if s != "" {
      NoBarsExactly(s[1..]);
      assert forall i :: 1 <= i < |s| ==> s[i] == s[1..][i - 1];
      assert NoBar(s) ==> s[0] != '|' && NoBar(s[1..]);
    }
  }

  /** The bars in the fields that may hold one by accident. */
  function FieldBars(r: Record): nat {
    Bars(r.timestamp) + Bars(r.action) + Bars(r.actor) + Bars(TargetText(r.target))
  }

  lemma BarsOfData(r: Record)
    ensures Bars(Data(r)) == FieldBars(r) + 6 + Bars(r.details) + Bars(r.previousHash)
  {
    var r5 := Bar(r.details, r.previousHash);
    var r4 := Bar(TargetText(r.target), r5);
    var r3 := Bar(r.actor, r4);
    var r2 := Bar(r.action, r3);
    var r1 := Bar(r.timestamp, r2);
    BarsOfBar(r.details, r.previousHash);
    BarsOfBar(TargetText(r.target), r5);
    BarsOfBar(r.actor, r4);
    BarsOfBar(r.action, r3);
    BarsOfBar(r.timestamp, r2);
    BarsOfBar(Decimal(r.index), r1);
    DecimalNoBar(r.index);
    NoBarsExactly(Decimal(r.index));
  }

  lemma FieldBarsExactly(r: Record)
    ensures FieldBars(r) == 0 <==> !BarInField(r)
  {
    NoBarsExactly(r.timestamp);
    NoBarsExactly(r.action);
    NoBarsExactly(r.actor);
    NoBarsExactly(TargetText(r.target));
  }

  lemma {:induction false} BrokenStays(s: string)
    ensures Scanned(Broken, s) == Broken
    decreases |s|
  {
    if s != "" { BrokenStays(s[1..]); }
  }

  /** A text cannot end outside a string both when it is read from outside one and from inside one. */
  lemma {:induction false} OneReading(s: string)
    ensures !(Scanned(Inside, s) == Outside && Scanned(Outside, s) == Outside)
    decreases |s|
  {
    if s != "" {
      OneReading(s[1..]);
      BrokenStays(s[1..]);
    }
  }

  lemma {:induction false} ScannedConcat(q: Quote, a: string, b: string)
    ensures Scanned(q, a + b) == Scanned(Scanned(q, a), b)
    decreases |a|
  {
    if a == "" {
      assert a + b == b;
    } else {
      assert (a + b)[1..] == a[1..] + b;
      ScannedConcat(After(q, a[0]), a[1..], b);
    }
  }

  /** What follows a bar in a JSON text is not a JSON text. */
  lemma NoJsonAfterBar(a: string, b: string)
    requires JsonText(Bar(a, b))
    ensures !JsonText(b)
  {
    var q := Scanned(Outside, a);
    assert Bar(a, b) == a + ("|" + b);
    ScannedConcat(Outside, a, "|" + b);
    assert ("|" + b)[1..] == b;
    BrokenStays(b);
    OneReading(b);
  }

  lemma DetailsAlign(a: string, d: Details, b: string, e: Details)
    requires Bar(a, d) == Bar(b, e)
    ensures d == e
  {
    if |d| > |e| { DetailsNotLonger(a, d, b, e); }
    if |e| > |d| { DetailsNotLonger(b, e, a, d); }
    if |d| == |e| { LastBarInjective(a, d, b, e); }
  }

  lemma DetailsNotLonger(a: string, d: Details, b: string, e: Details)
    requires Bar(a, d) == Bar(b, e)
    ensures |d| <= |e|
  {
    if |d| > |e| {
      var k := |d| - |e| - 1;
      SuffixAtBar(a, d, b, e);
      NoJsonAfterBar(d[..k], e);
    }
  }

  lemma SuffixAtBar(a: string, d: string, b: string, e: string)
    requires Bar(a, d) == Bar(b, e) && |d| > |e|
    ensures d == Bar(d[..|d| - |e| - 1], e)
  {
    var x, n := Bar(a, d), |a| + 1;
    assert x[n..] == d;
    assert x[|b|] == '|' && x[|b| + 1..] == e;
    assert x[n..|b|] == d[..|d| - |e| - 1];
  }

  /** The hashed text up to the details. */
  function Front(r: Record): string {
    Bar(Decimal(r.index), Bar(r.timestamp, Bar(r.action, Bar(r.actor, TargetText(r.target)))))
  }

  lemma DataIsFront(r: Record)
    ensures Data(r) == Bar(Front(r), Bar(r.details, r.previousHash))
  {
    var tail, target := Bar(r.details, r.previousHash), TargetText(r.target);
    BarMoves(r.actor, target, tail);
    BarMoves(r.action, Bar(r.actor, target), tail);
    BarMoves(r.timestamp, Bar(r.action, Bar(r.actor, target)), tail);
    BarMoves(Decimal(r.index), Bar(r.timestamp, Bar(r.action, Bar(r.actor, target))), tail);
  }

  /** Details and previous hash can always be read off the hashed text. */
  lemma SameDetails(r: Record, q: Record)
    requires Data(r) == Data(q) && |r.previousHash| == |q.previousHash|
    ensures r.details == q.details && r.previousHash == q.previousHash
  {
    DataIsFront(r);
    DataIsFront(q);
    BarMoves(Front(r), r.details, r.previousHash);
    BarMoves(Front(q), q.details, q.previousHash);
    LastBarInjective(Bar(Front(r), r.details), r.previousHash, Bar(Front(q), q.details), q.previousHash);
    DetailsAlign(Front(r), r.details, Front(q), q.details);
  }

  lemma NoDouble(r: Record, q: Record)
    requires !Ambiguous(r) && |q.previousHash| == |r.previousHash| && q.hash == r.hash
    requires Data(q) == Data(r)
    ensures q == r
  {
    SameDetails(r, q);
    BarsOfData(r);
    BarsOfData(q);
    FieldBarsExactly(r);
    FieldBarsExactly(q);
    SameFields(r, q);
  }

  lemma SameFields(r: Record, q: Record)
    requires !BarInField(r) && !BarInField(q) && Data(r) == Data(q)
    ensures q == r.(target := q.target, details := q.details, previousHash := q.previousHash, hash := q.hash)
    ensures TargetText(r.target) == TargetText(q.target)
  {
    DecimalNoBar(r.index);
    DecimalNoBar(q.index);
    var r5, q5 := Bar(r.details, r.previousHash), Bar(q.details, q.previousHash);
    var r4, q4 := Bar(TargetText(r.target), r5), Bar(TargetText(q.target), q5);
    var r3, q3 := Bar(r.actor, r4), Bar(q.actor, q4);
    var r2, q2 := Bar(r.action, r3), Bar(q.action, q3);
    BarInjective(Decimal(r.index), Bar(r.timestamp, r2), Decimal(q.index), Bar(q.timestamp, q2));
    BarInjective(r.timestamp, r2, q.timestamp, q2);
    BarInjective(r.action, r3, q.action, q3);
    BarInjective(r.actor, r4, q.actor, q4);
    BarInjective(TargetText(r.target), r5, TargetText(q.target), q5);
    DecimalInjective(r.index, q.index);
  }

  /** The hashed text determines an unambiguous record. */
  lemma DataInjective(r: Record, q: Record)
    requires Unambiguous(r) && Unambiguous(q) && Data(r) == Data(q)
    ensures r == q.(hash := r.hash)
  {
    SameDetails(r, q);
    SameFields(r, q);
  }

  /** A record has a double exactly when a field holds a bar or the target reads as Python's None. */
  lemma AmbiguousExactly(r: Record)
    ensures (exists q :: Doubles(q, r)) <==> Ambiguous(r)
  {
    if BarInField(r) {
      var q := BarIsAmbiguous(r);
    } else if TargetText(r.target) == "None" {
      NoneTargetIsAmbiguous(r);
    } else {
      forall q
        ensures !Doubles(q, r)
      {
        if |q.previousHash| == |r.previousHash| && q.hash == r.hash && Data(q) == Data(r) {
          NoDouble(r, q);
        }
      }
    }
  }

  // ---- Exactly which files the last hash fixes ----

  ghost predicate FixedLength(hash: Hash) {
    forall x :: |hash(x)| == HASH_LENGTH
  }

  predicate SameLastHash(rs: seq<Record>, qs: seq<Record>) {
    rs != [] && qs != [] && rs[|rs| - 1].hash == qs[|qs| - 1].hash
  }

  /** An accepted file with other records and the same last hash, without a hash collision between the two. */
  ghost predicate Rival(b: seq<Line>, a: seq<Line>, hash: Hash) {
    && Accepted(b, hash) && Records(b) != Records(a)
    && SameLastHash(Records(a), Records(b)) && CollisionFree(hash, Records(a), Records(b))
  }

  function AsLines(rs: seq<Record>): seq<Line> {
    if rs == [] then [] else AsLines(rs[..|rs| - 1]) + [Entry(rs[|rs| - 1])]
  }

  lemma {:induction false} RecordsOfLines(rs: seq<Record>)
    ensures Records(AsLines(rs)) == rs
    ensures forall i :: 0 <= i < |AsLines(rs)| ==> !AsLines(rs)[i].Malformed?
  {
    if rs != [] {
      RecordsOfLines(rs[..|rs| - 1]);
      OneMoreLine(AsLines(rs[..|rs| - 1]), Entry(rs[|rs| - 1]));
      assert rs == rs[..|rs| - 1] + [rs[|rs| - 1]];
    }
  }

  /** A double can take the place of its record anywhere in a chain. */
  lemma DoubleKeepsChain(rs: seq<Record>, i: nat, q: Record, hash: Hash)
    requires FixedLength(hash) && Chained(rs, hash) && i < |rs| && Doubles(q, rs[i])
    ensures Chained(rs[i := q], hash)
  {
    SameIndex(q, rs[i]);
    SameDetails(q, rs[i]);
    var all := rs[i := q];
    forall j | 0 <= j < |all|
      ensures Link(all, hash, j)
    {
      assert Link(rs, hash, j);
    }
  }

  lemma SameIndex(q: Record, r: Record)
    requires Data(q) == Data(r)
    ensures q.index == r.index
  {
    DecimalNoBar(r.index);
    DecimalNoBar(q.index);
    var x, y := Decimal(r.index), Decimal(q.index);
    BarInjective(x, Data(r)[|x| + 1..], y, Data(q)[|y| + 1..]);
    DecimalInjective(r.index, q.index);
  }

  lemma DoubleMakesRival(a: seq<Line>, i: nat, q: Record, hash: Hash)
    requires FixedLength(hash) && Accepted(a, hash) && CollisionFree(hash, Records(a), Records(a))
    requires i < |Records(a)| && Doubles(q, Records(a)[i])
    ensures Rival(AsLines(Records(a)[i := q]), a, hash)
  {
    var rs := Records(a);
    var qs := rs[i := q];
    RecordsOfLines(qs);
    DoubleKeepsChain(rs, i, q, hash);
    forall m, n | 0 <= m < |rs| && 0 <= n < |qs|
      ensures SameIfHashed(rs[m], qs[n], hash)
    {
      assert SameIfHashed(rs[m], rs[n], hash) && Data(qs[n]) == Data(rs[n]);
    }
  }

  lemma {:induction false} ZerosLength(n: nat)
    ensures |Zeros(n)| == n && forall i :: 0 <= i < n ==> Zeros(n)[i] == '0'
  {
    if n > 0 { ZerosLength(n - 1); }
  }

  lemma PreviousLength(rs: seq<Record>, hash: Hash, i: nat)
    requires FixedLength(hash) && Chained(rs, hash) && i < |rs|
    ensures |rs[i].previousHash| == HASH_LENGTH
  {
    assert Link(rs, hash, i);
    ZerosLength(HASH_LENGTH);
    if i > 0 { assert Link(rs, hash, i - 1); }
  }

  predicate TextDetermines(r: Record, q: Record) {
    Data(r) == Data(q) && r.hash == q.hash ==> r == q
  }

  ghost predicate TextsDetermine(rs: seq<Record>, qs: seq<Record>) {
    forall i, j :: 0 <= i < |rs| && 0 <= j < |qs| ==> TextDetermines(rs[i], qs[j])
  }

  lemma SameHashSameRecord(rs: seq<Record>, qs: seq<Record>, hash: Hash, i: nat, j: nat)
    requires CollisionFree(hash, rs, qs) && Chained(rs, hash) && Chained(qs, hash) && TextsDetermine(rs, qs)
    requires i < |rs| && j < |qs| && rs[i].hash == qs[j].hash
    ensures i == j && rs[i] == qs[j]
  {
    assert Link(rs, hash, i) && Link(qs, hash, j);
    assert SameIfHashed(rs[i], qs[j], hash) && TextDetermines(rs[i], qs[j]);
  }

  lemma OneBefore(rs: seq<Record>, qs: seq<Record>, hash: Hash, i: nat)
    requires CollisionFree(hash, rs, qs) && Chained(rs, hash) && Chained(qs, hash) && TextsDetermine(rs, qs)
    requires i + 1 < |rs| == |qs| && rs[i + 1] == qs[i + 1]
    ensures rs[i] == qs[i]
  {
    assert Link(rs, hash, i + 1) && Link(qs, hash, i + 1);
    SameHashSameRecord(rs, qs, hash, i, i);
  }

  lemma LastSame(rs: seq<Record>, qs: seq<Record>, hash: Hash)
    requires CollisionFree(hash, rs, qs) && Chained(rs, hash) && Chained(qs, hash) && TextsDetermine(rs, qs)
    requires SameLastHash(rs, qs)
    ensures |rs| == |qs| && rs[|rs| - 1] == qs[|rs| - 1]
  {
    SameHashSameRecord(rs, qs, hash, |rs| - 1, |qs| - 1);
  }

  /** From the last record backwards, each hash fixes its record and with it the hash before. */
  lemma {:induction false} OnlyChain(rs: seq<Record>, qs: seq<Record>, hash: Hash, i: nat)
    requires CollisionFree(hash, rs, qs) && Chained(rs, hash) && Chained(qs, hash) && TextsDetermine(rs, qs)
    requires i < |rs| == |qs| && rs[|rs| - 1] == qs[|rs| - 1]
    ensures rs[i] == qs[i]
    decreases |rs| - i
  {
    if i < |rs| - 1 {
      OnlyChain(rs, qs, hash, i + 1);
      OneBefore(rs, qs, hash, i);
    }
  }

  lemma OnlyRecords(rs: seq<Record>, qs: seq<Record>, hash: Hash)
    requires CollisionFree(hash, rs, qs) && Chained(rs, hash) && Chained(qs, hash) && TextsDetermine(rs, qs)
    requires SameLastHash(rs, qs)
    ensures rs == qs
  {
    LastSame(rs, qs, hash);
    forall i | 0 <= i < |rs|
      ensures rs[i] == qs[i]
    {
      OnlyChain(rs, qs, hash, i);
    }
  }

  /** Two accepted files that end in the same hash hold the same records, one by one. */
  lemma LastHashFixesTheFile(a: seq<Line>, b: seq<Line>, hash: Hash)
    requires CollisionFree(hash, Records(a), Records(b)) && Accepted(a, hash) && Accepted(b, hash)
    requires AllUnambiguous(Records(a)) && AllUnambiguous(Records(b))
    requires SameLastHash(Records(a), Records(b))
    ensures Records(a) == Records(b)
  {
    BothUnambiguous(Records(a), Records(b));
    OnlyRecords(Records(a), Records(b), hash);
  }

  lemma BothUnambiguous(rs: seq<Record>, qs: seq<Record>)
    requires AllUnambiguous(rs) && AllUnambiguous(qs)
    ensures TextsDetermine(rs, qs)
  {
    forall i, j | 0 <= i < |rs| && 0 <= j < |qs|
      ensures TextDetermines(rs[i], qs[j])
    {
      if Data(rs[i]) == Data(qs[j]) { DataInjective(rs[i], qs[j]); }
    }
  }

  lemma OneNotAmbiguous(rs: seq<Record>, qs: seq<Record>, hash: Hash)
    requires FixedLength(hash) && Chained(rs, hash) && Chained(qs, hash)
    requires forall i :: 0 <= i < |rs| ==> !Ambiguous(rs[i])
    ensures TextsDetermine(rs, qs)
  {
    forall i, j | 0 <= i < |rs| && 0 <= j < |qs|
      ensures TextDetermines(rs[i], qs[j])
    {
      PreviousLength(rs, hash, i);
      PreviousLength(qs, hash, j);
      if Data(rs[i]) == Data(qs[j]) && rs[i].hash == qs[j].hash { NoDouble(rs[i], qs[j]); }
    }
  }

  /**
   The promise of the chain, exactly: short of a hash collision, an accepted file can be replaced by
   another with the same last hash if and only if one of its records is ambiguous.
   */
  lemma LastHashExactly(a: seq<Line>, hash: Hash)
    requires FixedLength(hash) && Accepted(a, hash) && CollisionFree(hash, Records(a), Records(a))
    ensures (exists b :: Rival(b, a, hash)) <==> exists i :: 0 <= i < |Records(a)| && Ambiguous(Records(a)[i])
  {
    var rs := Records(a);
    if i :| 0 <= i < |rs| && Ambiguous(rs[i]) {
      AmbiguousExactly(rs[i]);
      var q :| Doubles(q, rs[i]);
      DoubleMakesRival(a, i, q, hash);
    } else {
      if b :| Rival(b, a, hash) { NoRival(a, b, hash); }
    }
  }

  lemma NoRival(a: seq<Line>, b: seq<Line>, hash: Hash)
    requires FixedLength(hash) && Accepted(a, hash)
    requires forall i :: 0 <= i < |Records(a)| ==> !Ambiguous(Records(a)[i])
    ensures !Rival(b, a, hash)
  {
    var rs, qs := Records(a), Records(b);
    if Accepted(b, hash) && SameLastHash(rs, qs) && CollisionFree(hash, rs, qs) {
      OneNotAmbiguous(rs, qs, hash);
      OnlyRecords(rs, qs, hash);
    }
  }

  // ---- Such hashes and files exist ----

  lemma TwoRecords(first: Record, second: Record, hash: Hash)
    requires Fits([], first, hash) && Fits([first], second, hash) && first.hash != second.hash
    ensures var a := [Entry(first), Entry(second)];
      Accepted(a, hash) && Records(a) == [first, second] && CollisionFree(hash, Records(a), Records(a))
  {
    RecordsOfTwo(first, second);
    ChainGrows([], first, hash);
    ChainGrows([first], second, hash);
    assert [] + [first] == [first] && [first] + [second] == [first, second];
  }

  lemma RecordsOfTwo(first: Record, second: Record)
    ensures Records([Entry(first), Entry(second)]) == [first, second]
  {
    var one := [Entry(first)];
    assert [] + [Entry(first)] == one && one + [Entry(second)] == [Entry(first), Entry(second)];
    OneMoreLine([], Entry(first));
    OneMoreLine(one, Entry(second));
  }

  const ONE := Zeros(HASH_LENGTH - 1) + "1"
  const FIRST := Record(0, "t", "act", "x", Some("y"), "{}", GENESIS, GENESIS)
  const SECOND := Record(1, "u", "act", "x", Some("y"), "{}", GENESIS, ONE)

  /** A hash that tells apart the texts of these two records. */
  function TwoValued(x: string): string {
    if x == Data(FIRST) then GENESIS else ONE
  }

  /** A file of two records, none ambiguous, that meets what `LastHashExactly` asks of a file and its hash. */
  lemma LastHashApplies()
    ensures var a := [Entry(FIRST), Entry(SECOND)];
      && FixedLength(TwoValued) && Accepted(a, TwoValued) && CollisionFree(TwoValued, Records(a), Records(a))
      && Records(a) == [FIRST, SECOND] && !Ambiguous(FIRST) && !Ambiguous(SECOND)
  {
    ZerosLength(HASH_LENGTH);
    ZerosLength(HASH_LENGTH - 1);
    assert Data(SECOND) != Data(FIRST) by {
      if Data(SECOND) == Data(FIRST) { SameIndex(SECOND, FIRST); }
    }
    assert GENESIS[HASH_LENGTH - 1] == '0' && ONE[HASH_LENGTH - 1] == '1';
    TwoRecords(FIRST, SECOND, TwoValued);
  }
}
