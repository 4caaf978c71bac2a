/** The manifest: one line per dependency, its path and the hash of its content. */
module Manifest {
  import opened Common
  import opened Text

  datatype Entry = Entry(dep: string, hash: string)

  /** A SHA-256 in lower-case hexadecimal. */
  predicate IsDigest(s: string) {
    |s| == 64 && forall i :: 0 <= i < |s| ==> '0' <= s[i] <= '9' || 'a' <= s[i] <= 'f'
  }

  // ---- writing ----

  function Line(e: Entry): string {
    e.dep + "\t" + e.hash
  }

  function Lines(entries: seq<Entry>): seq<string> {
    if entries == [] then [] else [Line(entries[0])] + Lines(entries[1..])
  }

  function Written(entries: seq<Entry>): string {
    Joined(Lines(entries), "\n") + "\n"
  }

  // ---- reading ----

  /** Where a text is broken into lines: more than just line feed and carriage return. */
  predicate IsBreak(c: char) {
    var u := c as int;
    10 <= u <= 13 || 28 <= u <= 30 || u == 0x85 || u == 0x2028 || u == 0x2029
  }

  function LineLength(s: string): (n: nat)
    ensures n <= |s| && (n < |s| ==> IsBreak(s[n])) && forall i :: 0 <= i < n ==> !IsBreak(s[i])
  {
    if s == [] || IsBreak(s[0]) then 0 else 1 + LineLength(s[1..])
  }

  /** The lines of a text; carriage return and line feed together break it once. */
  function SplitLines(s: string): seq<string> {
    if s == [] then []
    else
      var n := LineLength(s);
      if n == |s| then [s]
      else if s[n] == '\r' && n + 1 < |s| && s[n + 1] == '\n' then [s[..n]] + SplitLines(s[n + 2..])
      else [s[..n]] + SplitLines(s[n + 1..])
  }

  function TabAt(line: string): (n: nat)
    ensures n <= |line| && (n < |line| ==> line[n] == '\t') && '\t' !in line[..n]
  {
    if line == [] || line[0] == '\t' then 0
    else
      var n := 1 + TabAt(line[1..]);
      assert line[..n] == [line[0]] + line[1..][..n - 1];
      n
  }

  /** A line is split at its first tab; it is malformed without a path or without a digest after it. */
  function ReadLine(line: string): Option<Entry> {
    var n := TabAt(line);
    var dep, hash := line[..n], if n < |line| then line[n + 1..] else [];
    if dep == [] || !IsDigest(hash) then None else Some(Entry(dep, hash))
  }

  function ReadLines(lines: seq<string>): Option<seq<Entry>> {
    if lines == [] then Some([])
    else
      match (ReadLine(lines[0]), ReadLines(lines[1..]))
      case (Some(e), Some(rest)) => Some([e] + rest)
      case _ => None
  }

  /** Nothing if any line is malformed. */
  function Parsed(text: string): Option<seq<Entry>> {
    ReadLines(SplitLines(text))
  }

  // ---- what comes back ----

  predicate Unbroken(s: string) {
    forall i :: 0 <= i < |s| ==> !IsBreak(s[i])
  }

  /** What the dependency list of a moc run and the hash of a file can be. */
  predicate Recordable(e: Entry) {
    e.dep != [] && Free(e.dep, '\t') && Free(e.dep, '\n') && Free(e.dep, '\r') && IsDigest(e.hash)
  }

  predicate AllRecordable(entries: seq<Entry>) {
    forall i :: 0 <= i < |entries| ==> Recordable(entries[i])
  }

  predicate AllUnbroken(entries: seq<Entry>) {
    forall i :: 0 <= i < |entries| ==> Unbroken(entries[i].dep)
  }

  lemma FirstTab(dep: string, rest: string)
    requires Free(dep, '\t')
    ensures TabAt(dep + "\t" + rest) == |dep|
  {
    var line := dep + "\t" + rest;
    var n := TabAt(line);
    assert line[|dep|] == '\t' && forall i :: 0 <= i < |dep| ==> line[i] == dep[i];
    forall i | 0 <= i < n ensures line[i] != '\t' {
      assert line[i] in line[..n];
    }
  }

  lemma LineReadsBack(e: Entry)
    requires Recordable(e)
    ensures ReadLine(Line(e)) == Some(e)
  {
    FirstTab(e.dep, e.hash);
    assert Line(e)[..|e.dep|] == e.dep && Line(e)[|e.dep| + 1..] == e.hash;
  }

  lemma NoTabNoEntry(line: string)
    requires Free(line, '\t')
    ensures ReadLine(line) == None
  {
  }

  lemma BreaksAt(s: string, n: nat)
    requires n < |s| && IsBreak(s[n]) && forall i :: 0 <= i < n ==> !IsBreak(s[i])
    ensures LineLength(s) == n
  {
    var m := LineLength(s);
  }

  lemma DigestIsUnbroken(hash: string)
    requires IsDigest(hash)
    ensures Unbroken(hash)
  {
    forall i | 0 <= i < |hash| ensures !IsBreak(hash[i]) {
    }
  }

  /** One recorded line, with more text after it: it comes back whole, or broken into malformed pieces. */
  lemma LineThenRest(e: Entry, rest: string)
    requires Recordable(e)
    ensures Unbroken(e.dep) ==> SplitLines(Line(e) + "\n" + rest) == [Line(e)] + SplitLines(rest)
    ensures !Unbroken(e.dep) ==> Parsed(Line(e) + "\n" + rest) == None
  {
    var s := Line(e) + "\n" + rest;
    var n := LineLength(s);
    DigestIsUnbroken(e.hash);
    if Unbroken(e.dep) {
      assert forall i :: 0 <= i < |Line(e)| ==> s[i] == Line(e)[i];
      BreaksAt(s, |Line(e)|);
      assert s[..n] == Line(e) && s[n + 1..] == rest;
    } else {
      var i :| 0 <= i < |e.dep| && IsBreak(e.dep[i]);
      assert s[i] == e.dep[i];
      assert n < |e.dep| && s[..n] == e.dep[..n];
      assert s[n] == e.dep[n] && e.dep[n] != '\r';
      NoTabNoEntry(s[..n]);
      assert SplitLines(s)[0] == s[..n];
    }
  }

  /** The written text, without the separators counted apart. */
  function Body(entries: seq<Entry>): string {
    if entries == [] then [] else Line(entries[0]) + "\n" + Body(entries[1..])
  }

  lemma {:induction false} WrittenIsBody(entries: seq<Entry>)
    requires entries != []
    ensures Written(entries) == Body(entries)
  {
    if |entries| == 1 {
      assert Lines(entries) == [Line(entries[0])];
      assert Body(entries) == Line(entries[0]) + "\n";
    } else {
      WrittenIsBody(entries[1..]);
      assert Lines(entries)[1..] == Lines(entries[1..]) && |Lines(entries[1..])| >= 1;
      assert Written(entries) == Line(entries[0]) + "\n" + Written(entries[1..]);
    }
  }

  lemma {:induction false} BodyReadsBack(entries: seq<Entry>)
    requires AllRecordable(entries)
    ensures Parsed(Body(entries)) == if AllUnbroken(entries) then Some(entries) else None
  {
    if entries != [] {
      var e, rest := entries[0], entries[1..];
      BodyReadsBack(rest);
      OneMoreLine(e, Body(rest));
      assert entries == [e] + rest;
      OneMoreUnbroken(e, rest);
    }
  }

  lemma OneMoreLine(e: Entry, rest: string)
    requires Recordable(e)
    ensures Parsed(Line(e) + "\n" + rest) ==
            if Unbroken(e.dep) && Parsed(rest).Some? then Some([e] + Parsed(rest).value) else None
  {
    LineThenRest(e, rest);
    LineReadsBack(e);
    if Unbroken(e.dep) {
      assert ([Line(e)] + SplitLines(rest))[1..] == SplitLines(rest);
    }
  }

  lemma OneMoreUnbroken(e: Entry, rest: seq<Entry>)
    ensures AllUnbroken([e] + rest) <==> Unbroken(e.dep) && AllUnbroken(rest)
  {
    var entries := [e] + rest;
    assert entries[0] == e && forall i :: 1 <= i < |entries| ==> entries[i] == rest[i - 1];
    assert forall i :: 0 <= i < |rest| ==> rest[i] == entries[i + 1];
  }

  /** A written manifest is read back exactly, or counts as malformed: never as other entries. It comes
      back exactly when it has an entry at all and no path holds a character that breaks lines. */
  lemma ReadsBackOrNothing(entries: seq<Entry>)
    requires AllRecordable(entries)
    ensures Parsed(Written(entries)) == if entries != [] && AllUnbroken(entries) then Some(entries) else None
  {
    if entries == [] {
      assert Written(entries) == "\n";
      BreaksAt("\n", 0);
      assert SplitLines("\n") == [[]] + SplitLines([]);
    } else {
      WrittenIsBody(entries);
      BodyReadsBack(entries);
    }
  }

  // ---- where a text is broken ----

  lemma JoinedIsUnbroken(a: string, c: char, b: string)
    requires Unbroken(a) && Unbroken(b) && !IsBreak(c)
    ensures Unbroken(a + [c] + b)
  {
  }

  /** A single character breaks a text in two if and only if it is one of the ten that end lines. */
  lemma BreaksExactly(a: string, c: char, b: string)
    requires Unbroken(a) && Unbroken(b) && b != []
    ensures SplitLines(a + [c] + b) ==
            if c in "\n\r\U{0b}\U{0c}\U{1c}\U{1d}\U{1e}\U{85}\U{2028}\U{2029}" then [a, b] else [a + [c] + b]
  {
    var s := a + [c] + b;
    var n := LineLength(s);
    if IsBreak(c) {
      BreaksAt(s, |a|);
      assert s[..n] == a && s[n + 1..] == b && s[n + 1] == b[0];
      assert LineLength(b) == |b| by {
        var m := LineLength(b);
      }
    } else {
      JoinedIsUnbroken(a, c, b);
    }
  }
}
