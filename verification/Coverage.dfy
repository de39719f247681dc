/**
  The coverage bitmap (coverage-64.h, coverage-32.h, afl-fuzz-bitmap.c). The code
  works on words of 4 or 8 bytes, or on packs of words; everything here is proved
  against what it should do to single bytes, so the result does not depend on the
  word size.
 */
module Coverage {
  import opened Bits
  import opened Machine
  import opened Buffers
  import opened Words

  // ---- What happens to single bytes ----

  /** The trace shows bits that are still virgin. */
  predicate Overlaps(c: U8, v: U8) { And(c, v) != 0 }

  /** The trace hits a byte that was never hit. */
  predicate Pristine(c: U8, v: U8) { c != 0 && v == 0xff }

  /** 2 for a new tuple, 1 for a new hit count, 0 for nothing new. */
  function ByteVerdict(c: U8, v: U8): nat {
    if Pristine(c, v) then 2 else if Overlaps(c, v) then 1 else 0
  }

  /** The verdict on a map is the best verdict on any byte. */
  ghost function Verdict(cur: Bytes, vir: Bytes): (r: nat)
    requires |cur| == |vir|
    ensures r <= 2
  {
    if cur == [] then 0 else Max(ByteVerdict(cur[0], vir[0]), Verdict(cur[1..], vir[1..]))
  }

  predicate AnyPristine(cur: Bytes, vir: Bytes)
    requires |cur| == |vir|
  {
    exists i :: 0 <= i < |cur| && Pristine(cur[i], vir[i])
  }

  predicate AnyOverlap(cur: Bytes, vir: Bytes)
    requires |cur| == |vir|
  {
    exists i :: 0 <= i < |cur| && Overlaps(cur[i], vir[i])
  }

  lemma {:induction false} VerdictMeaning(cur: Bytes, vir: Bytes)
    requires |cur| == |vir|
    ensures Verdict(cur, vir) == if AnyPristine(cur, vir) then 2 else if AnyOverlap(cur, vir) then 1 else 0
  {
    hide And;
    if cur != [] {
      var c, v := cur[1..], vir[1..];
      VerdictMeaning(c, v);
      if AnyPristine(c, v) {
        var i :| 0 <= i < |c| && Pristine(c[i], v[i]);
        assert Pristine(cur[i + 1], vir[i + 1]);
      }
      if AnyOverlap(c, v) {
        var i :| 0 <= i < |c| && Overlaps(c[i], v[i]);
        assert Overlaps(cur[i + 1], vir[i + 1]);
      }
      if AnyPristine(cur, vir) {
        var i :| 0 <= i < |cur| && Pristine(cur[i], vir[i]);
        if i > 0 { assert Pristine(c[i - 1], v[i - 1]); }
      }
      if AnyOverlap(cur, vir) {
        var i :| 0 <= i < |cur| && Overlaps(cur[i], vir[i]);
        if i > 0 { assert Overlaps(c[i - 1], v[i - 1]); }
      }
    }
  }

  /** The bits of the trace are no longer virgin. */
  function Cleared(cur: Bytes, vir: Bytes): (r: Bytes)
    requires |cur| == |vir|
    ensures |r| == |vir|
  {
    AndBytes(vir, NotBytes(cur))
  }

  lemma ClearedAt(cur: Bytes, vir: Bytes, i: nat)
    requires i < |cur| == |vir|
    ensures Cleared(cur, vir)[i] == And(vir[i], 0xff - cur[i])
  {
  }

  // ---- Bytes and words ----

  lemma AndByte(v: U8)
    ensures And(v, 0xff) == v && And(0, v) == 0
  {
    assert Pow2(8) == 0x100 by { assert Pow2(4) == 0x10; }
    AndFull(v, 8);
  }

  /** The word test sees an overlap exactly when some byte has one. */
  lemma WordOverlap(cur: Bytes, vir: Bytes)
    requires |cur| == |vir|
    ensures And(Word(cur), Word(vir)) != 0 <==> AnyOverlap(cur, vir)
  {
    hide And, Word;
    AndWord(cur, vir);
    WordZero(AndBytes(cur, vir));
  }

  /** *virgin &= ~*current, byte by byte. */
  lemma WordCleared(cur: Bytes, vir: Bytes)
    requires |cur| == |vir|
    ensures Stored(And(Word(vir), Pow256(|cur|) - 1 - Word(cur)), |cur|) == Cleared(cur, vir)
  {
    hide And, Word, Stored;
    NotWord(cur);
    AndWord(vir, NotBytes(cur));
    StoredWord(AndBytes(vir, NotBytes(cur)));
  }

  /** Where nothing overlaps, clearing changes nothing. */
  lemma {:induction false} ClearedNothing(c: nat, v: nat, bits: nat)
    requires c < Pow2(bits) && v < Pow2(bits) && And(c, v) == 0
    ensures And(v, Pow2(bits) - 1 - c) == v
  {
    if bits == 0 {
      assert v == 0;
    } else {
      hide And, Pow2;
      var rest := Pow2(bits) - 1 - c;
      ClearedHalf(c, bits);
      ClearedHalf(v, bits);
      AndHalf(c, v);
      ClearedNothing(c / 2, v / 2, bits - 1);
      AndStep(v, rest);
    }
  }

  lemma ClearedHalf(c: nat, bits: nat)
    requires 0 < bits && c < Pow2(bits)
    ensures (Pow2(bits) - 1 - c) / 2 == Pow2(bits - 1) - 1 - c / 2
    ensures (Pow2(bits) - 1 - c) % 2 == 1 - c % 2 && c / 2 < Pow2(bits - 1)
  {
  }

  lemma ByteCleared(c: U8, v: U8)
    requires !Overlaps(c, v)
    ensures And(v, 0xff - c) == v && !Pristine(c, v)
  {
    hide And;
    assert Pow2(8) == 0x100 by { assert Pow2(4) == 0x10; }
    ClearedNothing(c, v, 8);
    AndFull(c, 8);
  }

  lemma ClearedSame(cur: Bytes, vir: Bytes)
    requires |cur| == |vir| && forall i :: 0 <= i < |cur| ==> !Overlaps(cur[i], vir[i])
    ensures Cleared(cur, vir) == vir && Verdict(cur, vir) == 0
  {
    hide And, Cleared, Verdict;
    VerdictMeaning(cur, vir);
    forall i | 0 <= i < |cur|
      ensures Cleared(cur, vir)[i] == vir[i] && !Pristine(cur[i], vir[i])
    {
      ClearedAt(cur, vir, i);
      ByteCleared(cur[i], vir[i]);
    }
  }

  lemma {:induction false} VerdictConcat(a: Bytes, x: Bytes, b: Bytes, y: Bytes)
    requires |a| == |x| && |b| == |y|
    ensures Verdict(a + b, x + y) == Max(Verdict(a, x), Verdict(b, y))
  {
    hide ByteVerdict;
    if a == [] {
      assert a + b == b && x + y == y;
    } else {
      VerdictConcat(a[1..], x[1..], b, y);
      assert (a + b)[1..] == a[1..] + b && (x + y)[1..] == x[1..] + y;
    }
  }

  lemma ClearedConcat(a: Bytes, x: Bytes, b: Bytes, y: Bytes)
    requires |a| == |x| && |b| == |y|
    ensures Cleared(a + b, x + y) == Cleared(a, x) + Cleared(b, y)
  {
    hide And;
  }

  // ---- discover_word and has_new_bits ----

  /** discover_word() on a word of `size` bytes. */
  method DiscoverWord(size: nat, ret: nat, current: array<U8>, virgin: array<U8>, at: nat) returns (ret': nat)
    requires size > 0 && ret <= 2 && current != virgin
    requires at + size <= current.Length && at + size <= virgin.Length
    modifies virgin
    ensures ret' == Max(ret, Verdict(current[at..at + size], old(virgin[at..at + size])))
    ensures virgin[..] ==
      old(virgin[..at]) + Cleared(current[at..at + size], old(virgin[at..at + size])) + old(virgin[at + size..])
  {
    hide And, Word, Stored, Cleared, Verdict, AnyPristine, AnyOverlap;
    ghost var cur, vir := current[at..at + size], virgin[at..at + size];
    WordOverlap(cur, vir);
    WordCleared(cur, vir);
    VerdictMeaning(cur, vir);
    ret' := ret;
    var c, v := Word(current[at..at + size]), Word(virgin[at..at + size]);
    if And(c, v) != 0 {
      if ret < 2 {
        if AnyPristine(current[at..at + size], virgin[at..at + size]) {
          ret' := 2;
        } else {
          ret' := 1;
        }
      }
      CopyInto(virgin, at, Stored(And(v, Pow256(size) - 1 - c), size));
    } else {
      NoOverlapNoVerdict(cur, vir, size);
      assert cur[..size] == cur && vir[..size] == vir;
      assert virgin[..] == virgin[..at] + vir + virgin[at + size..];
    }
  }

  /** has_new_bits(): words that are zero are skipped. */
  method HasNewBits(size: nat, current: array<U8>, virgin: array<U8>, realMapSize: nat) returns (ret: nat)
    requires size > 0 && current != virgin
    requires Scanned(size, realMapSize) <= current.Length && Scanned(size, realMapSize) <= virgin.Length
    modifies virgin
    ensures
      var n := Scanned(size, realMapSize);
      && ret == Verdict(current[..n], old(virgin[..n]))
      && virgin[..] == Cleared(current[..n], old(virgin[..n])) + old(virgin[n..])
  {
    hide Cleared, Verdict;
    ghost var vir := virgin[..];
    var words := (realMapSize + size - 1) / size;
    NothingScanned();
    ret := 0;
    var at := 0;
    for i := 0 to words
      invariant at == i * size && at <= words * size
      invariant ret == Verdict(current[..at], vir[..at])
      invariant virgin[..] == Cleared(current[..at], vir[..at]) + vir[at..]
    {
      NextWord(size, i, words);
      OneMoreWord(current[..], vir, at, size);
      ScanStep(current[..], vir, virgin[..], at, size);
      ret := ScanWord(size, ret, current, virgin, at);
      at := at + size;
    }
  }

  /** The body of has_new_bits(): a zero word is not looked at any further. */
  method ScanWord(size: nat, ret: nat, current: array<U8>, virgin: array<U8>, at: nat) returns (ret': nat)
    requires size > 0 && ret <= 2 && current != virgin
    requires at + size <= current.Length && at + size <= virgin.Length
    modifies virgin
    ensures ret' == Max(ret, Verdict(current[at..at + size], old(virgin[at..at + size])))
    ensures virgin[..] ==
      old(virgin[..at]) + Cleared(current[at..at + size], old(virgin[at..at + size])) + old(virgin[at + size..])
  {
    hide Cleared, Verdict, Word;
    ret' := ret;
    if Word(current[at..at + size]) != 0 {
      ret' := DiscoverWord(size, ret, current, virgin, at);
    } else {
      ZeroWord(current[at..at + size], virgin[at..at + size]);
      assert virgin[..] == virgin[..at] + virgin[at..at + size] + virgin[at + size..];
    }
  }

  /** Replacing one more word behind the words that were replaced. */
  lemma ScanStep(cur: Bytes, vir: Bytes, now: Bytes, at: nat, size: nat)
    requires at + size <= |cur| && at + size <= |vir|
    requires now == Cleared(cur[..at], vir[..at]) + vir[at..]
    ensures |now| == |vir| && now[..at] == Cleared(cur[..at], vir[..at])
    ensures now[at..at + size] == vir[at..at + size] && now[at + size..] == vir[at + size..]
  {
    hide Cleared;
  }

  /** The map size rounded up to whole words. */
  function Scanned(size: nat, realMapSize: nat): nat
    requires size > 0
  {
    (realMapSize + size - 1) / size * size
  }

  lemma NothingScanned()
    ensures Verdict([], []) == 0 && Cleared([], []) == []
  {
  }

  lemma NextWord(size: nat, i: nat, words: nat)
    requires i < words
    ensures (i + 1) * size == i * size + size <= words * size
  {
    assert (i + 1) * size + (words - i - 1) * size == words * size;
  }

  lemma OneMoreWord(cur: Bytes, vir: Bytes, at: nat, size: nat)
    requires at + size <= |cur| && at + size <= |vir|
    ensures Verdict(cur[..at + size], vir[..at + size]) ==
      Max(Verdict(cur[..at], vir[..at]), Verdict(cur[at..at + size], vir[at..at + size]))
    ensures Cleared(cur[..at + size], vir[..at + size]) ==
      Cleared(cur[..at], vir[..at]) + Cleared(cur[at..at + size], vir[at..at + size])
  {
    hide Cleared, Verdict;
    assert cur[..at + size] == cur[..at] + cur[at..at + size];
    assert vir[..at + size] == vir[..at] + vir[at..at + size];
    VerdictConcat(cur[..at], vir[..at], cur[at..at + size], vir[at..at + size]);
    ClearedConcat(cur[..at], vir[..at], cur[at..at + size], vir[at..at + size]);
  }

  lemma ZeroWord(cur: Bytes, vir: Bytes)
    requires |cur| == |vir| && Word(cur) == 0
    ensures Cleared(cur, vir) == vir && Verdict(cur, vir) == 0
  {
    WordZero(cur);
    forall i | 0 <= i < |cur|
      ensures !Overlaps(cur[i], vir[i])
    {
      AndByte(vir[i]);
    }
    ClearedSame(cur, vir);
  }

  /** The 32-bit and the 64-bit forms agree, as nothing is ever hit behind the real map. */
  lemma WordSizesAgree(cur: Bytes, vir: Bytes, realMapSize: nat)
    requires Scanned(4, realMapSize) <= |cur| == |vir| && Scanned(8, realMapSize) <= |cur|
    requires forall i :: realMapSize <= i < |cur| ==> cur[i] == 0
    ensures
      var m, n := Scanned(4, realMapSize), Scanned(8, realMapSize);
      && Verdict(cur[..m], vir[..m]) == Verdict(cur[..n], vir[..n])
      && Cleared(cur[..m], vir[..m]) + vir[m..] == Cleared(cur[..n], vir[..n]) + vir[n..]
  {
    hide Cleared, Verdict, Word;
    var m, n := Scanned(4, realMapSize), Scanned(8, realMapSize);
    assert realMapSize <= m <= n <= m + 4;
    OneMoreWord(cur, vir, m, n - m);
    WordZero(cur[m..n]);
    ZeroWord(cur[m..n], vir[m..n]);
    assert vir[m..] == vir[m..n] + vir[n..];
  }

  // ---- The virgin map is a history ----

  /** The virgin map after a run of traces. */
  ghost function AfterAll(vir: Bytes, traces: seq<Bytes>): (r: Bytes)
    requires forall t :: t in traces ==> |t| == |vir|
    ensures |r| == |vir|
  {
    if traces == [] then vir
    else Cleared(traces[|traces| - 1], AfterAll(vir, traces[..|traces| - 1]))
  }

  /** Bitwise or, through complements within a byte. */
  function Or8(a: U8, b: U8): U8 { 0xff - And(0xff - a, 0xff - b) }

  /** All bits any trace ever showed at position i. */
  ghost function SeenAt(traces: seq<Bytes>, i: nat): U8
    requires forall t :: t in traces ==> i < |t|
  {
    if traces == [] then 0 else Or8(SeenAt(traces[..|traces| - 1], i), traces[|traces| - 1][i])
  }

  /** After any history, what is virgin is what was virgin at first and was never
      shown by a trace. */
  lemma {:induction false} VirginIsHistory(vir: Bytes, traces: seq<Bytes>, i: nat)
    requires i < |vir| && forall t :: t in traces ==> |t| == |vir|
    ensures AfterAll(vir, traces)[i] == And(vir[i], 0xff - SeenAt(traces, i))
  {
    hide And, Cleared;
    if traces == [] {
      AndByte(vir[i]);
    } else {
      var before, last := traces[..|traces| - 1], traces[|traces| - 1];
      VirginIsHistory(vir, before, i);
      ClearedAt(last, AfterAll(vir, before), i);
      AndAssoc(vir[i], 0xff - SeenAt(before, i), 0xff - last[i]);
    }
  }

  /** A trace scores 0 exactly when, within the initial virgin map, earlier traces
      have shown all its bits. */
  lemma ScoresZeroIffCovered(vir: Bytes, traces: seq<Bytes>, t: Bytes)
    requires |t| == |vir| && forall u :: u in traces ==> |u| == |vir|
    ensures Verdict(t, AfterAll(vir, traces)) == 0 <==>
      forall i :: 0 <= i < |t| ==> And(And(t[i], vir[i]), 0xff - SeenAt(traces, i)) == 0
  {
    hide And, Cleared, Verdict, SeenAt, AfterAll;
    var now := AfterAll(vir, traces);
    VerdictMeaning(t, now);
    forall i | 0 <= i < |t|
      ensures And(t[i], now[i]) == And(And(t[i], vir[i]), 0xff - SeenAt(traces, i))
    {
      VirginIsHistory(vir, traces, i);
      AndAssoc(t[i], vir[i], 0xff - SeenAt(traces, i));
    }
    if Verdict(t, now) == 0 {
      forall i | 0 <= i < |t|
        ensures And(And(t[i], vir[i]), 0xff - SeenAt(traces, i)) == 0
      {
        PristineOverlaps(t[i], now[i]);
        assert !Overlaps(t[i], now[i]);
      }
    } else if AnyPristine(t, now) {
      var i :| 0 <= i < |t| && Pristine(t[i], now[i]);
      PristineOverlaps(t[i], now[i]);
      assert And(t[i], now[i]) != 0;
    } else {
      var i :| 0 <= i < |t| && Overlaps(t[i], now[i]);
      assert And(t[i], now[i]) != 0;
    }
  }

  lemma PristineOverlaps(c: U8, v: U8)
    ensures Pristine(c, v) ==> Overlaps(c, v)
  {
    AndByte(c);
  }

  /** The scanned parts of the first k traces. */
  function Cut(traces: seq<Bytes>, k: nat, n: nat): (cut: seq<Bytes>)
    requires k <= |traces| && forall t :: t in traces ==> n <= |t|
    ensures |cut| == k && forall t :: t in cut ==> |t| == n
  {
    seq(k, i requires 0 <= i < k => traces[i][..n])
  }

  /** A whole fuzzing session: every trace goes through has_new_bits() in turn. */
  method Record(size: nat, traces: seq<Bytes>, virgin: array<U8>, realMapSize: nat) returns (rets: seq<nat>)
    requires size > 0 && Scanned(size, realMapSize) <= virgin.Length
    requires forall t :: t in traces ==> Scanned(size, realMapSize) <= |t|
    modifies virgin
    ensures
      var n := Scanned(size, realMapSize);
      && virgin[..] == AfterAll(old(virgin[..n]), Cut(traces, |traces|, n)) + old(virgin[n..])
      && |rets| == |traces|
      && forall i :: 0 <= i < |traces| ==>
           rets[i] == Verdict(traces[i][..n], AfterAll(old(virgin[..n]), Cut(traces, i, n)))
  {
    hide Verdict, Cleared, AfterAll, Cut;
    ghost var n, was := Scanned(size, realMapSize), virgin[..];
    rets := [];
    NothingRecorded(was[..n], traces);
    for i := 0 to |traces|
      invariant virgin[..] == AfterAll(was[..n], Cut(traces, i, n)) + was[n..] && |rets| == i
      invariant forall j :: 0 <= j < i ==> rets[j] == Verdict(traces[j][..n], AfterAll(was[..n], Cut(traces, j, n)))
    {
      var t := traces[i];
      OneMoreTrace(was[..n], traces, i, n);
      var ret := RecordOne(size, t, virgin, realMapSize);
      rets := rets + [ret];
    }
  }

  method RecordOne(size: nat, t: Bytes, virgin: array<U8>, realMapSize: nat) returns (ret: nat)
    requires size > 0 && Scanned(size, realMapSize) <= virgin.Length && Scanned(size, realMapSize) <= |t|
    modifies virgin
    ensures
      var n := Scanned(size, realMapSize);
      && ret == Verdict(t[..n], old(virgin[..n]))
      && virgin[..] == Cleared(t[..n], old(virgin[..n])) + old(virgin[n..])
  {
    hide Verdict, Cleared;
    var current := new U8[|t|](k requires 0 <= k < |t| => t[k]);
    assert current[..] == t;
    ret := HasNewBits(size, current, virgin, realMapSize);
  }

  lemma NothingRecorded(vir: Bytes, traces: seq<Bytes>)
    requires forall t :: t in traces ==> |vir| <= |t|
    ensures AfterAll(vir, Cut(traces, 0, |vir|)) == vir
  {
  }

  lemma OneMoreTrace(vir: Bytes, traces: seq<Bytes>, i: nat, n: nat)
    requires i < |traces| && |vir| == n && forall t :: t in traces ==> n <= |t|
    ensures AfterAll(vir, Cut(traces, i + 1, n)) == Cleared(traces[i][..n], AfterAll(vir, Cut(traces, i, n)))
  {
    hide Cleared, Cut;
    CutNext(traces, i, n);
    LastTrace(vir, Cut(traces, i, n), traces[i][..n]);
  }

  lemma CutNext(traces: seq<Bytes>, i: nat, n: nat)
    requires i < |traces| && forall t :: t in traces ==> n <= |t|
    ensures Cut(traces, i + 1, n) == Cut(traces, i, n) + [traces[i][..n]]
  {
  }

  lemma LastTrace(vir: Bytes, traces: seq<Bytes>, t: Bytes)
    requires |t| == |vir| && forall u :: u in traces ==> |u| == |vir|
    ensures AfterAll(vir, traces + [t]) == Cleared(t, AfterAll(vir, traces))
  {
    hide Cleared;
    assert (traces + [t])[..|traces|] == traces;
  }

  /** A trace that was just recorded brings nothing new. */
  lemma RecordedTwice(vir: Bytes, t: Bytes)
    requires |t| == |vir|
    ensures Verdict(t, Cleared(t, vir)) == 0
  {
    hide And, Cleared, Verdict;
    var now := Cleared(t, vir);
    VerdictMeaning(t, now);
    forall i | 0 <= i < |t|
      ensures !Overlaps(t[i], now[i]) && !Pristine(t[i], now[i])
    {
      ClearedAt(t, vir, i);
      NoBitTwice(t[i], vir[i]);
      PristineOverlaps(t[i], now[i]);
    }
  }

  lemma NoBitTwice(c: U8, v: U8)
    ensures And(c, And(v, 0xff - c)) == 0
  {
    hide And;
    assert Pow2(8) == 0x100 by { assert Pow2(4) == 0x10; }
    AndComplement(c, 8);
    AndComm(v, 0xff - c);
    AndAssoc(c, 0xff - c, v);
    AndByte(v);
  }

  // ---- Hit count classes ----

  /** count_class_lookup8 */
  function ClassOf(n: U8): U8 {
    if n <= 2 then n
    else if n == 3 then 4
    else if n <= 7 then 8
    else if n <= 15 then 16
    else if n <= 31 then 32
    else if n <= 127 then 64
    else 128
  }

  /** Where the nine ranges of hit counts start. */
  const RANGES: seq<nat> := [0, 1, 2, 3, 4, 8, 16, 32, 128]

  /** Both counts lie in the same range. */
  predicate SameRange(m: U8, n: U8) {
    forall k :: 0 <= k < |RANGES| ==> (m >= RANGES[k] <==> n >= RANGES[k])
  }

  /** A class is a single bit, or 0 for no hit; it grows with the count, and stands for one range. */
  lemma ClassMeaning(m: U8, n: U8)
    ensures ClassOf(n) == 0 <==> n == 0
    ensures n > 0 ==> exists e: nat :: e < 8 && ClassOf(n) == Pow2(e)
    ensures m <= n ==> ClassOf(m) <= ClassOf(n)
    ensures ClassOf(m) == ClassOf(n) <==> SameRange(m, n)
  {
    ClassBit(n);
    assert RANGES[0] == 0 && RANGES[1] == 1 && RANGES[2] == 2 && RANGES[3] == 3 && RANGES[4] == 4;
    assert RANGES[5] == 8 && RANGES[6] == 16 && RANGES[7] == 32 && RANGES[8] == 128;
  }

  lemma ClassBit(n: U8)
    ensures n > 0 ==> exists e: nat :: e < 8 && ClassOf(n) == Pow2(e)
  {
    assert Pow2(0) == 1 && Pow2(1) == 2 && Pow2(2) == 4 && Pow2(3) == 8;
    assert Pow2(4) == 16 && Pow2(5) == 32 && Pow2(6) == 64 && Pow2(7) == 128;
  }

  /** Two traces are classified alike exactly when their counts lie in the same ranges. */
  lemma ClassifiedAlike(a: Bytes, b: Bytes)
    ensures Classified(a) == Classified(b) <==>
      |a| == |b| && forall i :: 0 <= i < |a| ==> SameRange(a[i], b[i])
  {
    hide ClassOf, SameRange;
    var x, y := Classified(a), Classified(b);
    forall i | 0 <= i < |a| == |b|
      ensures x[i] == y[i] <==> SameRange(a[i], b[i])
    {
      ClassMeaning(a[i], b[i]);
    }
  }

  function Classified(b: Bytes): (r: Bytes)
    ensures |r| == |b| && forall i :: 0 <= i < |r| ==> r[i] == ClassOf(b[i])
  {
    seq<U8>(|b|, i requires 0 <= i < |b| => ClassOf(b[i]))
  }

  type U16 = x: nat | x < 0x1_0000

  /** The lookup table classifies both halves of a 16-bit value. */
  ghost predicate IsClassTable(t: seq<U16>) {
    |t| == 0x1_0000 && forall w :: 0 <= w < 0x1_0000 ==> t[w] == 0x100 * ClassOf(w / 0x100) + ClassOf(w % 0x100)
  }

  /** init_count_class16(). */
  method InitCountClass16(t: array<U16>)
    requires t.Length == 0x1_0000
    modifies t
    ensures IsClassTable(t[..])
  {
    hide ClassOf;
    for b1 := 0 to 0x100
      invariant forall w :: 0 <= w < 0x100 * b1 ==> t[w] == 0x100 * ClassOf(w / 0x100) + ClassOf(w % 0x100)
    {
      for b2 := 0 to 0x100
        invariant forall w :: 0 <= w < 0x100 * b1 + b2 ==> t[w] == 0x100 * ClassOf(w / 0x100) + ClassOf(w % 0x100)
      {
        assert (0x100 * b1 + b2) / 0x100 == b1 && (0x100 * b1 + b2) % 0x100 == b2;
        t[0x100 * b1 + b2] := 0x100 * ClassOf(b1) + ClassOf(b2);
      }
    }
  }

  /** classify_word(): one table lookup per 16 bits. */
  method ClassifyWord(t: seq<U16>, word: Bytes) returns (r: Bytes)
    requires IsClassTable(t) && |word| % 2 == 0
    ensures r == Classified(word)
  {
    hide ClassOf, IsClassTable;
    r := [];
    for i := 0 to |word| / 2
      invariant |r| == 2 * i && forall k :: 0 <= k < 2 * i ==> r[k] == ClassOf(word[k])
    {
      var lo, hi := word[2 * i], word[2 * i + 1];
      LookupClassifiesBytes(t, lo, hi);
      var looked := t[Word16(lo, hi)];
      r := r + [looked % 0x100, looked / 0x100];
    }
  }

  function Word16(lo: U8, hi: U8): U16 { lo + 0x100 * hi }

  lemma LookupClassifiesBytes(t: seq<U16>, lo: U8, hi: U8)
    requires IsClassTable(t)
    ensures |t| == 0x1_0000
    ensures t[Word16(lo, hi)] % 0x100 == ClassOf(lo) && t[Word16(lo, hi)] / 0x100 == ClassOf(hi)
  {
    hide ClassOf;
    assert Word16(lo, hi) / 0x100 == hi && Word16(lo, hi) % 0x100 == lo;
  }

  lemma ClassifiedZero(b: Bytes)
    requires Word(b) == 0
    ensures Classified(b) == b
  {
    WordZero(b);
  }

  lemma ClassifiedConcat(a: Bytes, b: Bytes)
    ensures Classified(a + b) == Classified(a) + Classified(b)
  {
  }

  /** classify_counts(): zero words are left alone. */
  method ClassifyCounts(size: nat, t: seq<U16>, trace: array<U8>, mapSize: nat)
    requires size > 0 && size % 2 == 0 && IsClassTable(t) && mapSize <= trace.Length
    modifies trace
    ensures
      var n := WholeWords(size, mapSize);
      trace[..] == Classified(old(trace[..n])) + old(trace[n..])
  {
    hide Classified, Word, IsClassTable, Overlay;
    ghost var was := trace[..];
    var words := mapSize / size;
    assert words * size == WholeWords(size, mapSize);
    assert Classified([]) == [];
    var at := 0;
    for i := 0 to words
      invariant at == i * size && at <= words * size
      invariant trace[..] == Classified(was[..at]) + was[at..]
    {
      NextWord(size, i, words);
      ClassifiedStep(trace[..], was, at, size);
      ClassifyInPlace(size, t, trace, at);
      at := at + size;
    }
  }

  method ClassifyInPlace(size: nat, t: seq<U16>, trace: array<U8>, at: nat)
    requires size % 2 == 0 && IsClassTable(t) && at + size <= trace.Length
    modifies trace
    ensures trace[..] == Overlay(old(trace[..]), at, Classified(old(trace[at..at + size])))
  {
    hide Classified, Word, IsClassTable;
    var word := trace[at..at + size];
    if Word(word) != 0 {
      var r := ClassifyWord(t, word);
      CopyInto(trace, at, r);
    } else {
      ClassifiedZero(word);
      assert trace[..] == Overlay(trace[..], at, word);
    }
  }

  lemma ClassifiedStep(trace: Bytes, was: Bytes, at: nat, size: nat)
    requires at + size <= |was| && trace == Classified(was[..at]) + was[at..]
    ensures trace[at..at + size] == was[at..at + size]
    ensures Overlay(trace, at, Classified(was[at..at + size])) == Classified(was[..at + size]) + was[at + size..]
  {
    hide Classified;
    assert was[..at + size] == was[..at] + was[at..at + size];
    ClassifiedConcat(was[..at], was[at..at + size]);
  }

  // ---- skim ----

  lemma OverlapConcat(a: Bytes, x: Bytes, b: Bytes, y: Bytes)
    requires |a| == |x| && |b| == |y|
    ensures AnyOverlap(a + b, x + y) <==> AnyOverlap(a, x) || AnyOverlap(b, y)
  {
    hide And;
    var c, v := a + b, x + y;
    if AnyOverlap(a, x) {
      var i :| 0 <= i < |a| && Overlaps(a[i], x[i]);
      assert Overlaps(c[i], v[i]);
    }
    if AnyOverlap(b, y) {
      var i :| 0 <= i < |b| && Overlaps(b[i], y[i]);
      assert Overlaps(c[|a| + i], v[|a| + i]);
    }
    if AnyOverlap(c, v) {
      var i :| 0 <= i < |c| && Overlaps(c[i], v[i]);
      if i < |a| { assert Overlaps(a[i], x[i]); } else { assert Overlaps(b[i - |a|], y[i - |a|]); }
    }
  }

  /** Would the first `at` bytes, once classified, show something new? */
  ghost predicate NewUpTo(current: Bytes, virgin: Bytes, at: nat)
    requires at <= |current| && at <= |virgin|
  {
    AnyOverlap(Classified(current[..at]), virgin[..at])
  }

  lemma NewUpToStep(current: Bytes, virgin: Bytes, at: nat, size: nat)
    requires at + size <= |current| && at + size <= |virgin|
    ensures NewUpTo(current, virgin, at + size) <==>
      NewUpTo(current, virgin, at) || AnyOverlap(Classified(current[at..at + size]), virgin[at..at + size])
  {
    hide Classified, AnyOverlap;
    assert current[..at + size] == current[..at] + current[at..at + size];
    assert virgin[..at + size] == virgin[..at] + virgin[at..at + size];
    ClassifiedConcat(current[..at], current[at..at + size]);
    OverlapConcat(Classified(current[..at]), virgin[..at], Classified(current[at..at + size]), virgin[at..at + size]);
  }

  /** current[x] && classify_word(current[x]) & virgin[x] */
  method NewWord(size: nat, t: seq<U16>, virgin: Bytes, current: Bytes, at: nat) returns (b: bool)
    requires size % 2 == 0 && IsClassTable(t) && at + size <= |current| && at + size <= |virgin|
    ensures b <==> AnyOverlap(Classified(current[at..at + size]), virgin[at..at + size])
  {
    hide Word, And, Classified, IsClassTable;
    var cur, vir := current[at..at + size], virgin[at..at + size];
    if Word(cur) == 0 {
      ClassifiedZero(cur);
      ZeroWord(cur, vir);
      VerdictMeaning(cur, vir);
      return false;
    }
    var c := ClassifyWord(t, cur);
    WordOverlap(c, vir);
    b := And(Word(c), Word(vir)) != 0;
  }

  /** skim(), scalar: packs of four words of `size` bytes. */
  method SkimScalar(size: nat, t: seq<U16>, virgin: Bytes, current: Bytes) returns (r: nat)
    requires size > 0 && size % 2 == 0 && IsClassTable(t)
    requires |virgin| == |current| && |current| % (4 * size) == 0
    ensures r == if AnyOverlap(Classified(current), virgin) then 1 else 0
  {
    hide IsClassTable, NewUpTo, Classified, AnyOverlap;
    var packs := |current| / (4 * size);
    WholePacks(|current|, 4 * size);
    NewUpToEnds(current, virgin);
    for p := 0 to packs
      invariant p * (4 * size) <= |current| && !NewUpTo(current, virgin, p * (4 * size))
    {
      NextWord(4 * size, p, packs);
      var at := p * (4 * size);
      for x := 0 to 4
        invariant at + x * size <= |current| && !NewUpTo(current, virgin, at + x * size)
      {
        NextWord(size, x, 4);
        NewUpToStep(current, virgin, at + x * size, size);
        var b := NewWord(size, t, virgin, current, at + x * size);
        if b {
          NewUpToGrows(current, virgin, at + x * size + size);
          return 1;
        }
      }
    }
    return 0;
  }

  /** skim(), AVX2 (4 words per pack) and AVX-512 (8 words per pack): a mask of
      zero words decides which words are classified at all. */
  method SkimVector(lanes: nat, t: seq<U16>, virgin: Bytes, current: Bytes) returns (r: nat)
    requires (lanes == 4 || lanes == 8) && IsClassTable(t)
    requires |virgin| == |current| && |current| % (8 * lanes) == 0
    ensures r == if AnyOverlap(Classified(current), virgin) then 1 else 0
  {
    hide IsClassTable, NewUpTo, Classified, AnyOverlap, Word, ZeroMask;
    var packs := |current| / (8 * lanes);
    WholePacks(|current|, 8 * lanes);
    NewUpToEnds(current, virgin);
    for p := 0 to packs
      invariant p * (8 * lanes) <= |current| && !NewUpTo(current, virgin, p * (8 * lanes))
    {
      NextWord(8 * lanes, p, packs);
      var at := p * (8 * lanes);
      var b := SkimPack(lanes, t, virgin, current, at);
      if b { return 1; }
    }
    return 0;
  }

  /** One pack: skipped when all of its words are zero. */
  method SkimPack(lanes: nat, t: seq<U16>, virgin: Bytes, current: Bytes, at: nat) returns (b: bool)
    requires IsClassTable(t) && |virgin| == |current| && at + 8 * lanes <= |current|
    requires !NewUpTo(current, virgin, at)
    ensures if b then NewUpTo(current, virgin, |current|) else !NewUpTo(current, virgin, at + 8 * lanes)
  {
    hide IsClassTable, NewUpTo, Classified, AnyOverlap, Word, ZeroMask;
    var mask := ZeroMask(current[at..at + 8 * lanes], lanes);
    if forall x :: 0 <= x < lanes ==> mask[x] {
      ZeroPack(current, virgin, at, lanes, mask, lanes);
      return false;
    }
    for x := 0 to lanes
      invariant !NewUpTo(current, virgin, at + 8 * x)
    {
      LaneOfPack(current, at, lanes, x);
      if mask[x] {
        ZeroLane(current, virgin, at + 8 * x);
      } else {
        NewUpToStep(current, virgin, at + 8 * x, 8);
        b := NewWord(8, t, virgin, current, at + 8 * x);
        if b {
          NewUpToGrows(current, virgin, at + 8 * x + 8);
          return;
        }
      }
    }
    return false;
  }

  /** testn_epi64_mask, or cmpeq_epi64 against zero: which words are zero. */
  function ZeroMask(pack: Bytes, lanes: nat): (m: seq<bool>)
    requires |pack| == 8 * lanes
    ensures |m| == lanes && forall x :: 0 <= x < lanes ==> m[x] == (Word(pack[8 * x..8 * x + 8]) == 0)
  {
    seq(lanes, x requires 0 <= x < lanes => Word(pack[8 * x..8 * x + 8]) == 0)
  }

  lemma ZeroLane(current: Bytes, virgin: Bytes, at: nat)
    requires at + 8 <= |current| && at + 8 <= |virgin| && Word(current[at..at + 8]) == 0
    ensures NewUpTo(current, virgin, at + 8) <==> NewUpTo(current, virgin, at)
  {
    hide NewUpTo, Classified, Word, Verdict;
    var cur, vir := current[at..at + 8], virgin[at..at + 8];
    NewUpToStep(current, virgin, at, 8);
    ClassifiedZero(cur);
    ZeroWord(cur, vir);
    VerdictMeaning(cur, vir);
  }

  lemma LaneOfPack(current: Bytes, at: nat, lanes: nat, x: nat)
    requires at + 8 * lanes <= |current| && x < lanes
    ensures ZeroMask(current[at..at + 8 * lanes], lanes)[x] == (Word(current[at + 8 * x..at + 8 * x + 8]) == 0)
  {
    hide Word;
    SliceOfSlice(current, at, at + 8 * lanes, 8 * x, 8 * x + 8);
  }

  lemma SliceOfSlice(s: Bytes, from: nat, to: nat, lo: nat, hi: nat)
    requires from <= to <= |s| && lo <= hi <= to - from
    ensures s[from..to][lo..hi] == s[from + lo..from + hi]
  {
    var inner, outer := s[from..to][lo..hi], s[from + lo..from + hi];
    assert forall i :: 0 <= i < hi - lo ==> inner[i] == outer[i];
  }

  lemma {:induction false} ZeroPack(current: Bytes, virgin: Bytes, at: nat, lanes: nat, mask: seq<bool>, n: nat)
    requires at + 8 * lanes <= |current| && at + 8 * lanes <= |virgin| && n <= lanes
    requires mask == ZeroMask(current[at..at + 8 * lanes], lanes) && forall x :: 0 <= x < lanes ==> mask[x]
    ensures NewUpTo(current, virgin, at + 8 * n) <==> NewUpTo(current, virgin, at)
    decreases n
  {
    hide NewUpTo, ZeroMask;
    if n > 0 {
      ZeroPack(current, virgin, at, lanes, mask, n - 1);
      LaneOfPack(current, at, lanes, n - 1);
      ZeroLane(current, virgin, at + 8 * (n - 1));
    }
  }

  lemma WholePacks(n: nat, pack: nat)
    requires pack > 0 && n % pack == 0
    ensures n / pack * pack == n && 0 <= n / pack
  {
  }

  lemma NewUpToEnds(current: Bytes, virgin: Bytes)
    requires |virgin| == |current|
    ensures !NewUpTo(current, virgin, 0)
    ensures NewUpTo(current, virgin, |current|) <==> AnyOverlap(Classified(current), virgin)
  {
    assert current[..|current|] == current && virgin[..|virgin|] == virgin;
  }

  lemma NewUpToGrows(current: Bytes, virgin: Bytes, at: nat)
    requires |virgin| == |current| && at <= |current| && NewUpTo(current, virgin, at)
    ensures NewUpTo(current, virgin, |current|)
  {
    NewUpToStep(current, virgin, at, |current| - at);
  }

  // ---- The combined check ----

  /** has_new_bits_unclassified(): nothing is written unless skim finds something,
      and the verdict is that of the classified trace. */
  method HasNewBitsUnclassified(size: nat, t: seq<U16>, trace: array<U8>, virgin: array<U8>,
                                mapSize: nat, realMapSize: nat)
    returns (ret: nat)
    requires (size == 4 || size == 8) && IsClassTable(t) && trace != virgin
    requires mapSize == trace.Length == virgin.Length && mapSize % (4 * size) == 0
    requires Scanned(size, realMapSize) <= mapSize
    modifies trace, virgin
    ensures
      var n := Scanned(size, realMapSize);
      && ret == Verdict(Classified(old(trace[..]))[..n], old(virgin[..n]))
      && virgin[..] == Cleared(Classified(old(trace[..]))[..n], old(virgin[..n])) + old(virgin[n..])
    ensures trace[..] ==
      if AnyOverlap(Classified(old(trace[..])), old(virgin[..])) then Classified(old(trace[..])) else old(trace[..])
  {
    hide Classified, Verdict, Cleared, IsClassTable, AnyOverlap, Scanned;
    ghost var cur, vir, n := trace[..], virgin[..], Scanned(size, realMapSize);
    var some := SkimScalar(size, t, virgin[..], trace[..]);
    if some == 0 {
      NoOverlapNoVerdict(Classified(cur), vir, n);
      assert vir == vir[..n] + vir[n..];
      return 0;
    }
    WholeMap(size, mapSize);
    ClassifyCounts(size, t, trace, mapSize);
    assert cur[..mapSize] == cur && trace[..] == Classified(cur);
    ret := HasNewBits(size, trace, virgin, realMapSize);
    assert trace[..n] == Classified(cur)[..n];
  }

  lemma WholeMap(size: nat, mapSize: nat)
    requires size > 0 && mapSize % (4 * size) == 0
    ensures WholeWords(size, mapSize) == mapSize
  {
    var q := mapSize / (4 * size);
    Remainder(mapSize, 4 * size);
    assert q * (4 * size) == 4 * q * size;
    Quotient(mapSize, size, 4 * q, 0);
  }

  lemma NoOverlapNoVerdict(cur: Bytes, vir: Bytes, n: nat)
    requires n <= |cur| == |vir| && !AnyOverlap(cur, vir)
    ensures Verdict(cur[..n], vir[..n]) == 0 && Cleared(cur[..n], vir[..n]) == vir[..n]
  {
    hide And, Verdict, Cleared;
    forall i | 0 <= i < n
      ensures !Overlaps(cur[..n][i], vir[..n][i])
    {
      assert !Overlaps(cur[i], vir[i]);
    }
    ClearedSame(cur[..n], vir[..n]);
  }

  // ---- simplify_trace ----

  /** simplify_lookup */
  function SimplifiedByte(n: U8): U8 { if n == 0 then 1 else 128 }

  /** simplify_trace(): a zero word becomes 0x0101... at once. */
  method SimplifyTrace(size: nat, bytes: array<U8>, mapSize: nat)
    requires size > 0 && mapSize <= bytes.Length
    modifies bytes
    ensures
      var n := WholeWords(size, mapSize);
      forall i :: 0 <= i < bytes.Length ==>
        bytes[i] == if i >= n then old(bytes[i]) else if old(bytes[i]) == 0 then 0x01 else 0x80
  {
    hide Word;
    var words := mapSize / size;
    assert words * size == WholeWords(size, mapSize);
    hide WholeWords;
    for i := 0 to words
      invariant i * size <= words * size
      invariant forall k :: 0 <= k < bytes.Length ==>
        bytes[k] == if k < i * size then SimplifiedByte(old(bytes[k])) else old(bytes[k])
    {
      NextWord(size, i, words);
      var at := i * size;
      if Word(bytes[at..at + size]) != 0 {
        forall k | at <= k < at + size {
          bytes[k] := SimplifiedByte(bytes[k]);
        }
      } else {
        WordZero(bytes[at..at + size]);
        assert forall k :: at <= k < at + size ==> bytes[k] == bytes[at..at + size][k - at];
        forall k | at <= k < at + size {
          bytes[k] := 1;
        }
      }
    }
  }

  /** The map size rounded down to whole words. */
  function WholeWords(size: nat, mapSize: nat): (n: nat)
    requires size > 0
    ensures n <= mapSize
  {
    mapSize / size * size
  }
}
