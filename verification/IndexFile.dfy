/** The per-input index of recent cache keys: an append-only list, now and then rewritten in short form. */
module IndexFile {
  import opened Common

  const MAX_KEYS: nat := 8
  const COMPACT_LINES: nat := MAX_KEYS * 8

  function Reversed<T>(s: seq<T>): seq<T> {
    if s == [] then [] else [s[|s| - 1]] + Reversed(s[..|s| - 1])
  }

  /** The first occurrence of every element that is not in `seen`, in order. */
  function Distinctly(s: seq<string>, seen: set<string>): seq<string> {
    if s == [] then []
    else if s[0] in seen then Distinctly(s[1..], seen)
    else [s[0]] + Distinctly(s[1..], seen + {s[0]})
  }

  function Take<T>(n: nat, s: seq<T>): seq<T> {
    if |s| <= n then s else s[..n]
  }

  /** Newest first: the newest eight distinct keys of a file read backwards. */
  function Newest(backwards: seq<string>): seq<string> {
    Take(MAX_KEYS, Distinctly(backwards, {}))
  }

  function IndexRead(lines: seq<string>): seq<string> {
    Reversed(Newest(Reversed(lines)))
  }

  function Size(lines: seq<string>): nat {
    if lines == [] then 0 else Size(lines[..|lines| - 1]) + |lines[|lines| - 1]| + 1
  }

  class Index {
    var lines: seq<string>

    constructor ()
      ensures lines == []
    {
      lines := [];
    }

    /** Append the key; rewrite the file once it has grown well past what is read back from it. */
    method Add(key: string)
      modifies this
      ensures lines == Added(old(lines), key, Size(old(lines) + [key]) > COMPACT_LINES * (|key| + 1))
      ensures IndexRead(lines) == IndexRead(old(lines) + [key])
    {
      lines := lines + [key];
      if Size(lines) > COMPACT_LINES * (|key| + 1) {
        CompactionReadsTheSame(lines);
        lines := IndexRead(lines);
      }
    }
  }

  function Added(lines: seq<string>, key: string, compact: bool): seq<string> {
    if compact then IndexRead(lines + [key]) else lines + [key]
  }

  /** The file after any keys were added, compacted after any of them. */
  function File(adds: seq<(string, bool)>): seq<string> {
    if adds == [] then []
    else Added(File(adds[..|adds| - 1]), adds[|adds| - 1].0, adds[|adds| - 1].1)
  }

  /** Every key ever added. */
  function History(adds: seq<(string, bool)>): seq<string> {
    if adds == [] then [] else History(adds[..|adds| - 1]) + [adds[|adds| - 1].0]
  }

  // ---- distinct elements of a concatenation ----

  lemma {:induction false} DistinctlyConcat(a: seq<string>, b: seq<string>, seen: set<string>)
    ensures Distinctly(a + b, seen) == Distinctly(a, seen) + Distinctly(b, seen + Elements(a))
  {
    if a == [] {
      assert a + b == b && seen + Elements(a) == seen;
    } else {
      assert (a + b)[1..] == a[1..] + b;
      assert Elements(a) == {a[0]} + Elements(a[1..]);
      if a[0] in seen {
        DistinctlyConcat(a[1..], b, seen);
        assert seen + Elements(a[1..]) == seen + Elements(a);
      } else {
        DistinctlyConcat(a[1..], b, seen + {a[0]});
        assert seen + {a[0]} + Elements(a[1..]) == seen + Elements(a);
      }
    }
  }

  lemma {:induction false} DistinctlyTwice(b: seq<string>, r: set<string>, s: set<string>)
    ensures Distinctly(Distinctly(b, r), s) == Distinctly(b, r + s)
  {
    if b != [] {
      if b[0] in r {
        DistinctlyTwice(b[1..], r, s);
      } else if b[0] in s {
        DistinctlyTwice(b[1..], r + {b[0]}, s);
        assert r + {b[0]} + s == r + s;
      } else {
        DistinctlyTwice(b[1..], r + {b[0]}, s + {b[0]});
        assert r + {b[0]} + (s + {b[0]}) == r + s + {b[0]};
      }
    }
  }

  lemma {:induction false} DistinctlyIsDistinct(b: seq<string>, seen: set<string>)
    ensures Distinct(Distinctly(b, seen))
    ensures Elements(Distinctly(b, seen)) == Elements(b) - seen
  {
    if b != [] {
      assert Elements(b) == {b[0]} + Elements(b[1..]);
      if b[0] in seen {
        DistinctlyIsDistinct(b[1..], seen);
      } else {
        var rest := Distinctly(b[1..], seen + {b[0]});
        DistinctlyIsDistinct(b[1..], seen + {b[0]});
        assert b[0] !in Elements(rest);
        assert Elements([b[0]] + rest) == {b[0]} + Elements(rest);
      }
    }
  }

  lemma {:induction false} AbsentDoesNotMatter(y: seq<string>, seen: set<string>, e: string)
    requires e !in y
    ensures Distinctly(y, seen + {e}) == Distinctly(y, seen)
  {
    if y != [] {
      if y[0] in seen {
        AbsentDoesNotMatter(y[1..], seen, e);
      } else {
        AbsentDoesNotMatter(y[1..], seen + {y[0]}, e);
        assert seen + {y[0]} + {e} == seen + {e} + {y[0]};
      }
    }
  }

  /** Passing over `seen` loses no more elements than it has. */
  lemma {:induction false} FewAreDropped(x: seq<string>, seen: set<string>)
    requires Distinct(x)
    ensures |Distinctly(x, seen)| + |seen| >= |x|
  {
    if x != [] {
      var e, rest := x[0], x[1..];
      assert e !in rest;
      if e in seen {
        var fewer := seen - {e};
        FewAreDropped(rest, fewer);
        AbsentDoesNotMatter(rest, fewer, e);
        assert fewer + {e} == seen;
      } else {
        FewAreDropped(rest, seen);
        AbsentDoesNotMatter(rest, seen, e);
      }
    }
  }

  // ---- compaction ----

  /** Cutting a list of distinct keys to `n` does not show once `seen` are passed over and `n - |seen|` taken. */
  lemma CuttingDoesNotShow(x: seq<string>, n: nat, seen: set<string>)
    requires Distinct(x) && |seen| <= n
    ensures Take(n - |seen|, Distinctly(Take(n, x), seen)) == Take(n - |seen|, Distinctly(x, seen))
  {
    var first := Take(n, x);
    if |x| > n {
      var rest := x[n..];
      assert x == first + rest;
      RestDoesNotShow(first, rest, seen);
    }
  }

  lemma RestDoesNotShow(first: seq<string>, rest: seq<string>, seen: set<string>)
    requires Distinct(first) && |seen| <= |first|
    ensures Take(|first| - |seen|, Distinctly(first, seen)) == Take(|first| - |seen|, Distinctly(first + rest, seen))
  {
    DistinctlyConcat(first, rest, seen);
    FewAreDropped(first, seen);
    TakeFromFirst(Distinctly(first, seen), Distinctly(rest, seen + Elements(first)), |first| - |seen|);
  }

  lemma TakeFromFirst(a: seq<string>, b: seq<string>, n: nat)
    requires |a| >= n
    ensures Take(n, a + b) == Take(n, a)
  {
    assert a[..|a|] == a;
    assert (a + b)[..n] == a[..n];
  }

  /** In front of anything newer, the newest keys of a file stand for the whole of it. */
  lemma NewestStandsForAll(newer: seq<string>, older: seq<string>)
    ensures Newest(newer + Newest(older)) == Newest(newer + older)
  {
    var all, x := Distinctly(older, {}), Newest(older);
    var head, seen := Distinctly(newer, {}), {} + Elements(newer);
    DistinctlyConcat(newer, older, {});
    DistinctlyConcat(newer, x, {});
    DistinctlyTwice(older, {}, seen);
    assert {} + seen == seen;
    DistinctlyIsDistinct(older, {});
    DistinctlyIsDistinct(newer, {});
    DistinctCount(head);
    assert Elements(head) == seen;
    if |head| <= MAX_KEYS {
      CuttingDoesNotShow(all, MAX_KEYS, seen);
      TakeAfter(head, Distinctly(x, seen), Distinctly(all, seen), MAX_KEYS);
    } else {
      assert (head + Distinctly(x, seen))[..MAX_KEYS] == head[..MAX_KEYS] == (head + Distinctly(older, seen))[..MAX_KEYS];
    }
  }

  lemma TakeAfter(head: seq<string>, a: seq<string>, b: seq<string>, n: nat)
    requires |head| <= n && Take(n - |head|, a) == Take(n - |head|, b)
    ensures Take(n, head + a) == Take(n, head + b)
  {
    assert Take(n, head + a) == head + Take(n - |head|, a);
    assert Take(n, head + b) == head + Take(n - |head|, b);
  }

  lemma {:induction false} ReversedTwice<T>(s: seq<T>)
    ensures Reversed(Reversed(s)) == s
  {
    if s != [] {
      var n := |s| - 1;
      ReversedTwice(s[..n]);
      ReversedConcat([s[n]], Reversed(s[..n]));
      assert Reversed([s[n]]) == [s[n]] by { assert [s[n]][..0] == []; }
    }
  }

  lemma {:induction false} ReversedConcat<T>(a: seq<T>, b: seq<T>)
    ensures Reversed(a + b) == Reversed(b) + Reversed(a)
  {
    if b == [] {
      assert a + b == a;
    } else {
      var n := |b| - 1;
      ReversedConcat(a, b[..n]);
      assert (a + b)[..|a + b| - 1] == a + b[..n];
    }
  }

  lemma CompactionReadsTheSame(lines: seq<string>)
    ensures IndexRead(IndexRead(lines)) == IndexRead(lines)
  {
    var newest := Newest(Reversed(lines));
    ReversedTwice(newest);
    NewestStandsForAll([], Reversed(lines));
    assert [] + newest == newest && [] + Reversed(lines) == Reversed(lines);
  }

  /** Two files that are told apart by nothing that may still be added to them. */
  ghost predicate Alike(file: seq<string>, history: seq<string>) {
    forall newer: seq<string> {:trigger AlikeBehind(newer, file, history)} :: AlikeBehind(newer, file, history)
  }

  ghost predicate AlikeBehind(newer: seq<string>, file: seq<string>, history: seq<string>) {
    Newest(newer + Reversed(file)) == Newest(newer + Reversed(history))
  }

  lemma AlikeAfterAdd(file: seq<string>, history: seq<string>, key: string, compact: bool)
    requires Alike(file, history)
    ensures Alike(Added(file, key, compact), history + [key])
  {
    var now, all := Added(file, key, compact), history + [key];
    forall newer: seq<string> ensures AlikeBehind(newer, now, all) {
      assert AlikeBehind(newer + [key], file, history);
      AlikeBehindAdd(newer, file, history, key);
      CompactedBehind(newer, file + [key]);
    }
  }

  lemma AlikeBehindAdd(newer: seq<string>, file: seq<string>, history: seq<string>, key: string)
    requires AlikeBehind(newer + [key], file, history)
    ensures AlikeBehind(newer, file + [key], history + [key])
  {
    OneMoreReversed(file, key);
    OneMoreReversed(history, key);
    assert newer + ([key] + Reversed(file)) == (newer + [key]) + Reversed(file);
    assert newer + ([key] + Reversed(history)) == (newer + [key]) + Reversed(history);
  }

  /** Rewriting a file to what is read of it changes nothing that may still be read. */
  lemma CompactedBehind(newer: seq<string>, longer: seq<string>)
    ensures Newest(newer + Reversed(IndexRead(longer))) == Newest(newer + Reversed(longer))
  {
    ReversedTwice(Newest(Reversed(longer)));
    NewestStandsForAll(newer, Reversed(longer));
  }

  lemma OneMoreReversed(s: seq<string>, key: string)
    ensures Reversed(s + [key]) == [key] + Reversed(s)
  {
    assert (s + [key])[..|s|] == s;
  }

  lemma {:induction false} FileIsAlike(adds: seq<(string, bool)>)
    ensures Alike(File(adds), History(adds))
  {
    if adds != [] {
      var n := |adds| - 1;
      FileIsAlike(adds[..n]);
      AlikeAfterAdd(File(adds[..n]), History(adds[..n]), adds[n].0, adds[n].1);
    }
  }

  /** Compaction is unobservable: whenever it happened, what is read is what the whole uncompacted
      history would give. */
  lemma CompactionIsUnobservable(adds: seq<(string, bool)>)
    ensures IndexRead(File(adds)) == IndexRead(History(adds))
  {
    FileIsAlike(adds);
    assert AlikeBehind([], File(adds), History(adds));
    assert [] + Reversed(File(adds)) == Reversed(File(adds));
    assert [] + Reversed(History(adds)) == Reversed(History(adds));
  }

  /** What is read: distinct keys of the file, as many as there are up to eight, the last one last. */
  lemma ReadIsNewestDistinct(lines: seq<string>)
    ensures Distinct(IndexRead(lines)) && Elements(IndexRead(lines)) <= Elements(lines)
    ensures |IndexRead(lines)| == if |Elements(lines)| <= 8 then |Elements(lines)| else 8
    ensures lines != [] ==> IndexRead(lines) != [] && IndexRead(lines)[|IndexRead(lines)| - 1] == lines[|lines| - 1]
  {
    var back := Reversed(lines);
    ReversedElements(lines);
    DistinctlyIsDistinct(back, {});
    DistinctCount(Distinctly(back, {}));
    assert Elements(back) - {} == Elements(lines);
    ReversedElements(Newest(back));
    ReversedDistinct(Newest(back));
    if lines != [] {
      assert Newest(back)[0] == back[0] == lines[|lines| - 1];
      ReversedEnds(Newest(back));
    }
  }

  lemma {:induction false} ReversedElements(s: seq<string>)
    ensures |Reversed(s)| == |s| && Elements(Reversed(s)) == Elements(s)
  {
    if s != [] {
      var n := |s| - 1;
      ReversedElements(s[..n]);
      assert Elements(s) == Elements(s[..n]) + {s[n]};
      assert Elements(Reversed(s)) == {s[n]} + Elements(Reversed(s[..n]));
    }
  }

  lemma {:induction false} ReversedAt(s: seq<string>, i: nat)
    requires i < |s|
    ensures |Reversed(s)| == |s| && Reversed(s)[i] == s[|s| - 1 - i]
  {
    ReversedElements(s);
    ReversedElements(s[..|s| - 1]);
    if i > 0 {
      ReversedAt(s[..|s| - 1], i - 1);
    }
  }

  lemma ReversedDistinct(s: seq<string>)
    requires Distinct(s)
    ensures Distinct(Reversed(s))
  {
    forall i, j | 0 <= i < j < |Reversed(s)| ensures Reversed(s)[i] != Reversed(s)[j] {
      ReversedElements(s);
      ReversedAt(s, i);
      ReversedAt(s, j);
    }
  }

  lemma ReversedEnds(s: seq<string>)
    requires s != []
    ensures |Reversed(s)| == |s| && Reversed(s)[|s| - 1] == s[0]
  {
    ReversedAt(s, |s| - 1);
  }

  // ---- what "newest" means ----

  /** Where a key was last added; -1 if never. */
  function LastUse(lines: seq<string>, key: string): int {
    if lines == [] then -1
    else if lines[|lines| - 1] == key then |lines| - 1
    else LastUse(lines[..|lines| - 1], key)
  }

  /** How far back a key first stands, read backwards. */
  function Back(backwards: seq<string>, key: string): nat {
    if backwards == [] || backwards[0] == key then 0 else 1 + Back(backwards[1..], key)
  }

  lemma {:induction false} LastUseIsBack(lines: seq<string>, key: string)
    ensures |Reversed(lines)| == |lines| && LastUse(lines, key) == |lines| - 1 - Back(Reversed(lines), key)
  {
    if lines != [] {
      LastUseIsBack(lines[..|lines| - 1], key);
      assert Reversed(lines)[1..] == Reversed(lines[..|lines| - 1]);
    }
  }

  lemma {:induction false} DistinctlyUnseen(s: seq<string>, seen: set<string>, i: nat)
    requires i < |Distinctly(s, seen)|
    ensures Distinctly(s, seen)[i] !in seen
  {
    if s != [] {
      if s[0] in seen {
        DistinctlyUnseen(s[1..], seen, i);
      } else if i > 0 {
        DistinctlyUnseen(s[1..], seen + {s[0]}, i - 1);
      }
    }
  }

  lemma {:induction false} DistinctlyByAge(s: seq<string>, seen: set<string>, i: nat, j: nat)
    requires i < j < |Distinctly(s, seen)|
    ensures Back(s, Distinctly(s, seen)[i]) < Back(s, Distinctly(s, seen)[j])
  {
    if s != [] {
      DistinctlyUnseen(s, seen, i);
      DistinctlyUnseen(s, seen, j);
      if s[0] in seen {
        DistinctlyByAge(s[1..], seen, i, j);
      } else {
        var rest := seen + {s[0]};
        DistinctlyUnseen(s[1..], rest, j - 1);
        if i > 0 {
          DistinctlyUnseen(s[1..], rest, i - 1);
          DistinctlyByAge(s[1..], rest, i - 1, j - 1);
        }
      }
    }
  }

  /** The keys read stand in the order of their last use, and every key left out was last used before
      all of them. */
  lemma ReadIsByLastUse(lines: seq<string>)
    ensures forall i, j :: 0 <= i < j < |IndexRead(lines)| ==>
              LastUse(lines, IndexRead(lines)[i]) < LastUse(lines, IndexRead(lines)[j])
    ensures forall key, i :: key in lines && key !in IndexRead(lines) && 0 <= i < |IndexRead(lines)| ==>
              LastUse(lines, key) < LastUse(lines, IndexRead(lines)[i])
  {
    var read := IndexRead(lines);
    forall i, j | 0 <= i < j < |read| ensures LastUse(lines, read[i]) < LastUse(lines, read[j]) {
      InOrder(lines, i, j);
    }
    forall key, i | key in lines && key !in read && 0 <= i < |read| ensures LastUse(lines, key) < LastUse(lines, read[i]) {
      OlderThanRead(lines, key, i);
    }
  }

  /** Position `i` of what is read is position `n - 1 - i` of the newest keys. */
  lemma ReadAt(lines: seq<string>, i: nat) returns (k: nat)
    requires i < |IndexRead(lines)|
    ensures var all := Distinctly(Reversed(lines), {});
            && |IndexRead(lines)| == |Take(MAX_KEYS, all)| && k == |IndexRead(lines)| - 1 - i
            && k < |all| && IndexRead(lines)[i] == all[k]
  {
    var newest := Newest(Reversed(lines));
    ReversedElements(newest);
    ReversedAt(newest, i);
    k := |newest| - 1 - i;
  }

  lemma InOrder(lines: seq<string>, i: nat, j: nat)
    requires i < j < |IndexRead(lines)|
    ensures LastUse(lines, IndexRead(lines)[i]) < LastUse(lines, IndexRead(lines)[j])
  {
    var a := ReadAt(lines, i);
    var b := ReadAt(lines, j);
    DistinctlyByAge(Reversed(lines), {}, b, a);
    LastUseIsBack(lines, IndexRead(lines)[i]);
    LastUseIsBack(lines, IndexRead(lines)[j]);
  }

  lemma OlderThanRead(lines: seq<string>, key: string, i: nat)
    requires key in lines && key !in IndexRead(lines) && i < |IndexRead(lines)|
    ensures LastUse(lines, key) < LastUse(lines, IndexRead(lines)[i])
  {
    var back := Reversed(lines);
    var all := Distinctly(back, {});
    DistinctlyIsDistinct(back, {});
    ReversedElements(lines);
    assert key in Elements(back) - {};
    var k :| 0 <= k < |all| && all[k] == key;
    var a := ReadAt(lines, i);
    ReversedElements(Newest(back));
    assert forall m :: 0 <= m < |Newest(back)| ==> Newest(back)[m] == all[m] && Newest(back)[m] in Elements(Newest(back));
    assert k >= MAX_KEYS;
    DistinctlyByAge(back, {}, a, k);
    LastUseIsBack(lines, key);
    LastUseIsBack(lines, IndexRead(lines)[i]);
  }

  // ---- how long the file gets ----

  /** The file after these keys were added, compacted as the size test says. */
  function Kept(keys: seq<string>): seq<string> {
    if keys == [] then []
    else
      var before, key := Kept(keys[..|keys| - 1]), keys[|keys| - 1];
      Added(before, key, Size(before + [key]) > COMPACT_LINES * (|key| + 1))
  }

  lemma {:induction false} SizeOfEqual(lines: seq<string>, n: nat)
    requires forall i :: 0 <= i < |lines| ==> |lines[i]| == n
    ensures Size(lines) == |lines| * (n + 1)
  {
    if lines != [] {
      SizeOfEqual(lines[..|lines| - 1], n);
      assert |lines| * (n + 1) == (|lines| - 1) * (n + 1) + (n + 1);
    }
  }

  lemma OverLimit(lines: nat, n: nat)
    ensures lines * (n + 1) > 64 * (n + 1) <==> lines > 64
  {
    if lines > 64 {
      assert lines * (n + 1) == 64 * (n + 1) + (lines - 64) * (n + 1);
    } else {
      assert 64 * (n + 1) == lines * (n + 1) + (64 - lines) * (n + 1);
    }
  }

  /** Keys of one length, as digests are, never fill more than 64 lines; at the 65th the file is cut down to
      the eight at most that are read. */
  lemma {:induction false} StaysShort(keys: seq<string>, n: nat)
    requires forall i :: 0 <= i < |keys| ==> |keys[i]| == n
    ensures |Kept(keys)| <= 64 && forall i :: 0 <= i < |Kept(keys)| ==> |Kept(keys)[i]| == n
    ensures keys != [] ==>
              var before := Kept(keys[..|keys| - 1]);
              Kept(keys) == if |before| == 64 then IndexRead(before + [keys[|keys| - 1]]) else before + [keys[|keys| - 1]]
  {
    if keys != [] {
      var before, key := Kept(keys[..|keys| - 1]), keys[|keys| - 1];
      StaysShort(keys[..|keys| - 1], n);
      SizeOfEqual(before + [key], n);
      OverLimit(|before + [key]|, n);
      ReadIsNewestDistinct(before + [key]);
      forall i | 0 <= i < |IndexRead(before + [key])| ensures |IndexRead(before + [key])[i]| == n {
        assert IndexRead(before + [key])[i] in Elements(before + [key]);
      }
    }
  }

  lemma OneMoreAdd(adds: seq<(string, bool)>, key: string, compact: bool)
    ensures File(adds + [(key, compact)]) == Added(File(adds), key, compact)
    ensures History(adds + [(key, compact)]) == History(adds) + [key]
  {
    assert (adds + [(key, compact)])[..|adds|] == adds;
  }

  /** And it reads as the keys themselves would. */
  lemma {:induction false} KeptReadsAlike(keys: seq<string>) returns (adds: seq<(string, bool)>)
    ensures File(adds) == Kept(keys) && History(adds) == keys && IndexRead(Kept(keys)) == IndexRead(keys)
  {
    adds := [];
    if keys != [] {
      var n := |keys| - 1;
      var before := KeptReadsAlike(keys[..n]);
      var compact := Size(Kept(keys[..n]) + [keys[n]]) > COMPACT_LINES * (|keys[n]| + 1);
      adds := before + [(keys[n], compact)];
      OneMoreAdd(before, keys[n], compact);
      assert keys == keys[..n] + [keys[n]];
    }
    CompactionIsUnobservable(adds);
  }
}
