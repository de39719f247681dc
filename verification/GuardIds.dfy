/**
  Edge numbering for -fsanitize-coverage=trace-pc-guard targets, before the fork
  server is up: every module's guards are numbered as the module is loaded, and
  the coverage map grows with them.
 */
module GuardIds {
  import opened Machine
  import opened Options
  import opened Handshake

  const MAP_INITIAL_SIZE: nat := 2097152

  /** The environment variables that matter here, and whether the target has a fixed map address. */
  datatype Env = Env(disabled: bool, dumpMapSize: bool, underAfl: bool,
                     mapSize: Option<U32>, ratio: Option<U32>, mapAddr: bool)

  datatype Outcome = Fine | Exits

  // ---- numbering ----

  function Count(sel: seq<bool>): (n: nat)
    ensures n <= |sel|
  {
    if sel == [] then 0 else Count(sel[..|sel| - 1]) + if sel[|sel| - 1] then 1 else 0
  }

  /** Selected guards are numbered upwards from loc + 1, the others are 0. */
  function Numbered(loc: nat, sel: seq<bool>): (ids: seq<nat>)
    ensures |ids| == |sel|
  {
    if sel == [] then []
    else Numbered(loc, sel[..|sel| - 1]) + [if sel[|sel| - 1] then loc + Count(sel) else 0]
  }

  /** The same, in 32 bits. */
  function Wrapped(ids: seq<nat>): seq<U32> {
    seq<U32>(|ids|, i requires 0 <= i < |ids| => ids[i] % TWO_32)
  }

  function NonZero(ids: seq<U32>): seq<U32> {
    if ids == [] then []
    else NonZero(ids[..|ids| - 1]) + if ids[|ids| - 1] != 0 then [ids[|ids| - 1]] else []
  }

  ghost predicate Increasing(s: seq<U32>) {
    forall i, j :: 0 <= i < j < |s| ==> s[i] < s[j]
  }

  ghost predicate Between(s: seq<U32>, lo: int, hi: int) {
    forall i :: 0 <= i < |s| ==> lo <= s[i] <= hi
  }

  /** Without overflow the non-zero numbers of a module are new, distinct and in order. */
  lemma {:induction false} NumberedFresh(loc: nat, sel: seq<bool>)
    requires loc + Count(sel) < TWO_32
    ensures Increasing(NonZero(Wrapped(Numbered(loc, sel))))
    ensures Between(NonZero(Wrapped(Numbered(loc, sel))), loc + 1, loc + Count(sel))
  {
    if sel == [] {
    } else {
      hide Increasing, Between, Numbered, Wrapped;
      var k := |sel| - 1;
      NumberedFresh(loc, sel[..k]);
      var ids := Wrapped(Numbered(loc, sel));
      LastNumber(loc, sel);
      var before := NonZero(ids[..k]);
      if sel[k] {
        assert NonZero(ids) == before + [ids[k]];
        OneMoreId(before, ids[k], loc + 1);
      } else {
        assert NonZero(ids) == before;
      }
    }
  }

  lemma LastNumber(loc: nat, sel: seq<bool>)
    requires sel != [] && loc + Count(sel) < TWO_32
    ensures
      var k, ids := |sel| - 1, Wrapped(Numbered(loc, sel));
      && |ids| == |sel| && ids[..k] == Wrapped(Numbered(loc, sel[..k]))
      && ids[k] == if sel[k] then loc + Count(sel) else 0
  {
  }

  lemma OneMoreId(s: seq<U32>, x: U32, lo: int)
    requires Increasing(s) && Between(s, lo, x - 1) && lo <= x
    ensures Increasing(s + [x]) && Between(s + [x], lo, x)
  {
  }

  /** Without overflow exactly the selected guards are non-zero. */
  lemma {:induction false} NonZeroSelected(loc: nat, sel: seq<bool>)
    requires loc + Count(sel) < TWO_32
    ensures forall i :: 0 <= i < |sel| ==> (Wrapped(Numbered(loc, sel))[i] != 0 <==> sel[i])
  {
    if sel != [] {
      var k := |sel| - 1;
      NonZeroSelected(loc, sel[..k]);
      LastNumber(loc, sel);
      var ids, before := Wrapped(Numbered(loc, sel)), Wrapped(Numbered(loc, sel[..k]));
      assert forall i :: 0 <= i < k ==> ids[i] == ids[..k][i] == before[i];
    }
  }

  /** The n-th selected guard. */
  lemma {:induction false} SelectedAt(loc: nat, sel: seq<bool>, n: nat) returns (i: nat)
    requires 0 < n <= Count(sel)
    ensures i < |sel| && sel[i] && Numbered(loc, sel)[i] == loc + n
  {
    var k := |sel| - 1;
    if n <= Count(sel[..k]) {
      i := SelectedAt(loc, sel[..k], n);
    } else {
      i := k;
    }
  }

  lemma {:induction false} NumberedRange(loc: nat, sel: seq<bool>, i: nat)
    requires i < |sel|
    ensures if sel[i] then loc < Numbered(loc, sel)[i] <= loc + Count(sel) else Numbered(loc, sel)[i] == 0
  {
    var k := |sel| - 1;
    if i < k {
      NumberedRange(loc, sel[..k], i);
    }
  }

  /**
    Every selected guard gets an ID past the reserved ones exactly when the
    32-bit counter does not overflow.
   */
  lemma ReservedUnlessOverflow(loc: nat, sel: seq<bool>)
    requires 5 <= loc < TWO_32
    ensures (forall i :: 0 <= i < |sel| && sel[i] ==> Wrapped(Numbered(loc, sel))[i] >= 6)
            <==> loc + Count(sel) < TWO_32
  {
    if loc + Count(sel) < TWO_32 {
      forall i | 0 <= i < |sel| && sel[i]
        ensures Wrapped(Numbered(loc, sel))[i] >= 6
      {
        NumberedRange(loc, sel, i);
      }
    } else {
      var i := SelectedAt(loc, sel, TWO_32 - loc);
      assert Wrapped(Numbered(loc, sel))[i] == 0;
    }
  }

  lemma NumberedNone(loc: nat)
    ensures Count([]) == 0 && Wrapped(Numbered(loc, [])) == []
  {
  }

  lemma NumberedStep(loc: nat, sel: seq<bool>, i: nat)
    requires i < |sel|
    ensures Count(sel[..i + 1]) == Count(sel[..i]) + if sel[i] then 1 else 0
    ensures Wrapped(Numbered(loc, sel[..i + 1])) ==
      Wrapped(Numbered(loc, sel[..i])) + [if sel[i] then (loc + Count(sel[..i + 1])) % TWO_32 else 0]
  {
    assert sel[..i + 1][..i] == sel[..i];
  }

  lemma NextId(n: nat)
    ensures Add32(n % TWO_32, 1) == (n + 1) % TWO_32
  {
    WrapAdd32(n, 1);
  }

  lemma BetweenGrows(s: seq<U32>, hi: int)
    ensures Between(s, 6, hi) ==> forall more: nat {:trigger Between(s, 6, more)} :: hi <= more ==> Between(s, 6, more)
  {
  }

  lemma IncreasingConcat(a: seq<U32>, b: seq<U32>, lo: int, mid: int, hi: int)
    requires Increasing(a) && Increasing(b) && lo <= mid + 1 && mid <= hi
    requires Between(a, lo, mid) && Between(b, mid + 1, hi)
    ensures Increasing(a + b) && Between(a + b, lo, hi)
  {
  }

  /** atoi() of an absent AFL_MAP_SIZE counts as 0. */
  function EnvMapSize(e: Env): U32 { if e.mapSize.Some? then e.mapSize.value else 0 }

  /** The map size __afl_map_shm() picks outside of the fuzzer. */
  function StandaloneSize(e: Env, first: U32): U32 {
    if EnvMapSize(e) > MAP_INITIAL_SIZE then EnvMapSize(e)
    else if first > MAP_INITIAL_SIZE then first
    else MAP_INITIAL_SIZE
  }

  /** The highest number in use and the size of the map. */
  datatype Sizes = Sizes(loc: U32, size: U32)

  /** Under the fuzzer, a map larger than AFL_MAP_SIZE allows is refused: beyond what an
      offer can tell unless all of it is allowed, and beyond the default unless that is. */
  predicate Refused(e: Env, loc: U32, size: U32) {
    var n := if loc == 0 then size else Add32(loc, 1);
    || (loc != 0 && n > MAX_MAPSIZE && EnvMapSize(e) < n)
    || (n > MAP_SIZE && EnvMapSize(e) < MAP_SIZE)
  }

  /** What __afl_map_shm() makes of both; `fixed` means that the map is placed at a fixed address. */
  function Mapped(e: Env, loc: U32, size: U32, first: U32, fixed: bool): Sizes {
    var up := if loc == 0 then Sizes(0, size) else Sizes(Add32(loc, 1), Add32(loc, 1));
    if e.underAfl then up else Standalone(e, up.loc, first, fixed)
  }

  function Standalone(e: Env, loc: U32, first: U32, fixed: bool): Sizes {
    var size := StandaloneSize(e, first);
    var up := if size > MAP_INITIAL_SIZE && loc < size then size else loc;
    if !fixed && up > MAP_INITIAL_SIZE && up > first then Sizes(up, up) else Sizes(up, size)
  }

  /**
    The map holds every guard, unless the target runs outside of the fuzzer and
    the size forced on it is too small and not corrected.
   */
  lemma MapHoldsGuards(e: Env, loc: U32, size: U32, first: U32, fixed: bool)
    requires 0 < loc && loc + 1 < TWO_32
    ensures loc < Mapped(e, loc, size, first, fixed).size <==>
      !(!e.underAfl && StandaloneSize(e, first) <= loc && (loc < first || fixed))
  {
  }

  /** Two sizes that are too small: one forced by AFL_MAP_SIZE, one at a fixed address. */
  lemma MapTooSmall(size: U32)
    ensures
      var forced := Env(false, false, false, Some(2097153), None, false);
      Mapped(forced, 3000000, size, 3000001, false).size == 2097153
    ensures
      var placed := Env(false, false, false, None, None, true);
      Mapped(placed, 3000000, size, 0, true).size == 2097152
  {
  }

  /** The first of them is what a target with 3000000 edges numbered at link time starts with. */
  method StartTooSmall() returns (highest: U32, mapSize: U32)
    ensures highest == 3000000 && mapSize == 2097153
  {
    highest := 3000000;
    var rt := new Runtime(Env(false, false, false, Some(2097153), None, false), highest);
    var o := rt.AutoInit(true);
    mapSize := rt.mapSize;
    MapTooSmall(MAP_SIZE);
  }

  class Runtime {
    const env: Env
    var finalLoc: U32
    var mapSize: U32
    var firstFinalLoc: U32
    var shmReady: bool
    var secondDone: bool
    var earlyDone: bool
    var areaInitial: bool      // __afl_area_ptr is __afl_area_initial
    var dummyInitial: bool     // __afl_area_ptr_dummy is __afl_area_initial

    // Every non-zero guard handed out so far, and whether a 32-bit counter ever overflowed.
    ghost var issued: seq<U32>
    ghost var overflowed: bool

    /** `linked` is the number of edges that were numbered at link time already. */
    constructor (env: Env, linked: U32)
      ensures Valid() && this.env == env && issued == [] && !overflowed
      ensures finalLoc == linked && mapSize == MAP_SIZE && firstFinalLoc == 0
      ensures !shmReady && !secondDone && !earlyDone && areaInitial
    {
      this.env := env;
      finalLoc, mapSize, firstFinalLoc := linked, MAP_SIZE, 0;
      shmReady, secondDone, earlyDone, areaInitial, dummyInitial := false, false, false, true, true;
      issued, overflowed := [], false;
    }

    /** All guards ever handed out are distinct, past the reserved IDs and not past finalLoc. */
    ghost predicate Valid()
      reads this
    {
      !overflowed ==> Increasing(issued) && Between(issued, 6, finalLoc)
    }

    /** __afl_map_shm(), sizes only; `maps` says whether the operating system provides the memory. */
    method MapShm(maps: bool) returns (o: Outcome)
      requires Valid()
      modifies this`finalLoc, this`mapSize, this`shmReady, this`areaInitial, this`dummyInitial, this`overflowed
      ensures Valid() && shmReady
      ensures old(shmReady) ==>
        o.Fine? && finalLoc == old(finalLoc) && mapSize == old(mapSize) && overflowed == old(overflowed)
      ensures old(overflowed) ==> overflowed
      ensures overflowed ==> old(overflowed) || old(finalLoc) + 1 == TWO_32
      ensures maps && !env.dumpMapSize && !env.underAfl ==> o.Fine?
      ensures !old(shmReady) && (env.dumpMapSize || env.underAfl) ==>
        (o.Exits? <==> env.dumpMapSize || !maps || Refused(env, old(finalLoc), old(mapSize)))
      ensures !overflowed ==> finalLoc >= old(finalLoc)
      ensures !overflowed && !old(shmReady) && o.Fine? ==>
        var fixed := old(areaInitial) && env.mapAddr;
        Sizes(finalLoc, mapSize) == Mapped(env, old(finalLoc), old(mapSize), firstFinalLoc, fixed)
      ensures !old(shmReady) && o.Fine? && (env.underAfl || env.mapAddr) ==> !areaInitial
    {
      hide Increasing, Between;
      if shmReady { return Fine; }
      shmReady := true;
      BetweenGrows(issued, finalLoc);
      if finalLoc != 0 {
        overflowed := overflowed || finalLoc + 1 == TWO_32;
        finalLoc := Add32(finalLoc, 1);
        mapSize := finalLoc;
        if env.dumpMapSize { return Exits; }
        if finalLoc > MAP_SIZE && EnvMapSize(env) < finalLoc && finalLoc > MAX_MAPSIZE && env.underAfl { return Exits; }
      } else if env.dumpMapSize {
        return Exits;
      }
      if env.underAfl {
        if mapSize > MAP_SIZE && EnvMapSize(env) < MAP_SIZE { return Exits; }
        if !maps { return Exits; }
        areaInitial := false;
        return Fine;
      }
      o := MapStandalone(maps);
    }

    /** The part of __afl_map_shm() for targets outside of the fuzzer. */
    method MapStandalone(maps: bool) returns (o: Outcome)
      modifies this`finalLoc, this`mapSize, this`areaInitial, this`dummyInitial
      ensures finalLoc >= old(finalLoc) && (maps ==> o.Fine?)
      ensures o.Fine? ==>
        Sizes(finalLoc, mapSize) == Standalone(env, old(finalLoc), firstFinalLoc, old(areaInitial) && env.mapAddr)
      ensures o.Fine? ==>
        areaInitial == (old(areaInitial) && !env.mapAddr && (finalLoc <= MAP_INITIAL_SIZE || finalLoc <= firstFinalLoc))
    {
      if EnvMapSize(env) > MAP_INITIAL_SIZE {
        mapSize := EnvMapSize(env);
      } else if firstFinalLoc > MAP_INITIAL_SIZE {
        mapSize := firstFinalLoc;
      } else {
        mapSize := MAP_INITIAL_SIZE;
      }
      if mapSize > MAP_INITIAL_SIZE && finalLoc < mapSize {
        finalLoc := mapSize;
      }
      if areaInitial && env.mapAddr {
        if !maps { return Exits; }
        areaInitial := false;
      } else if finalLoc > MAP_INITIAL_SIZE && finalLoc > firstFinalLoc {
        dummyInitial, areaInitial := false, false;
        mapSize := finalLoc;
        if !maps { return Exits; }
      }
      return Fine;
    }

    /** __afl_unmap_shm() */
    method UnmapShm()
      requires Valid()
      modifies this`shmReady, this`areaInitial
      ensures Valid() && !shmReady
      ensures areaInitial == if old(shmReady) then dummyInitial else old(areaInitial)
    {
      if !shmReady { return; }
      areaInitial := dummyInitial;
      shmReady := false;
    }

    /** The constructors, which run at most once each. */
    method AutoInit(maps: bool) returns (o: Outcome)
      requires Valid()
      modifies this
      ensures Valid() && issued == old(issued)
      ensures old(overflowed) ==> overflowed
      ensures !overflowed ==> finalLoc >= old(finalLoc)
      ensures overflowed ==> old(overflowed) || old(finalLoc) + 1 == TWO_32
      ensures maps && !env.dumpMapSize && !env.underAfl ==> o.Fine?
      ensures old(secondDone && earlyDone) ==> o.Fine? && finalLoc == old(finalLoc) && overflowed == old(overflowed)
      ensures secondDone && earlyDone && (!old(earlyDone) && !env.disabled ==> shmReady)
      ensures firstFinalLoc ==
        if !old(secondDone) && !env.disabled && old(finalLoc) > MAP_INITIAL_SIZE then Add32(old(finalLoc), 1)
        else old(firstFinalLoc)
      ensures !overflowed && !old(secondDone || earlyDone || shmReady) && !env.disabled && o.Fine? ==>
        var moved := old(finalLoc) > MAP_INITIAL_SIZE && maps;
        Sizes(finalLoc, mapSize) ==
          Mapped(env, old(finalLoc), old(mapSize), firstFinalLoc, old(areaInitial) && !moved && env.mapAddr)
    {
      if !secondDone {
        secondDone := true;
        if !env.disabled && finalLoc > MAP_INITIAL_SIZE {
          firstFinalLoc := Add32(finalLoc, 1);
          if maps { areaInitial, dummyInitial := false, false; }
        }
      }
      if !earlyDone {
        earlyDone := true;
        if !env.disabled {
          o := MapShm(maps);
          return;
        }
      }
      return Fine;
    }

    /** Number the selected guards of a module; the first one always is. */
    method Number(guards: array<U32>, sel: seq<bool>)
      requires Valid() && |sel| == guards.Length > 0 && sel[0] && finalLoc >= 5
      modifies guards, this`finalLoc, this`issued, this`overflowed
      ensures Valid()
      ensures guards[..] == Wrapped(Numbered(old(finalLoc), sel))
      ensures finalLoc == (old(finalLoc) + Count(sel)) % TWO_32
      ensures overflowed == (old(overflowed) || old(finalLoc) + Count(sel) >= TWO_32)
      ensures issued == old(issued) + NonZero(guards[..])
      ensures !overflowed ==> guards[0] >= 6
      ensures !overflowed ==> forall i :: 0 <= i < guards.Length ==> (guards[i] != 0 <==> sel[i])
    {
      hide Increasing, Between, NonZero, Numbered, Count;
      ghost var loc := finalLoc;
      Assign(guards, sel);
      overflowed := overflowed || loc + Count(sel) >= TWO_32;
      if !overflowed {
        NumberedFresh(loc, sel);
        IncreasingConcat(issued, NonZero(guards[..]), 6, loc, loc + Count(sel));
        ReservedUnlessOverflow(loc, sel);
        NonZeroSelected(loc, sel);
      }
      issued := issued + NonZero(guards[..]);
    }

    /** The numbering loop. */
    method Assign(guards: array<U32>, sel: seq<bool>)
      requires |sel| == guards.Length > 0 && sel[0]
      modifies guards, this`finalLoc
      ensures guards[..] == Wrapped(Numbered(old(finalLoc), sel))
      ensures finalLoc == (old(finalLoc) + Count(sel)) % TWO_32
    {
      hide Numbered, Count, Wrapped, Add32;
      ghost var loc := finalLoc;
      NumberedNone(loc);
      NextId(loc);
      NumberedStep(loc, sel, 0);
      assert sel[..0] == [];
      finalLoc := Add32(finalLoc, 1);
      guards[0] := finalLoc;
      for i := 1 to guards.Length
        invariant finalLoc == (loc + Count(sel[..i])) % TWO_32
        invariant guards[..i] == Wrapped(Numbered(loc, sel[..i]))
      {
        NumberedStep(loc, sel, i);
        NextId(loc + Count(sel[..i]));
        if sel[i] {
          finalLoc := Add32(finalLoc, 1);
          guards[i] := finalLoc;
        } else {
          guards[i] := 0;
        }
        assert guards[..i + 1] == guards[..i] + [guards[i]];
      }
      assert sel[..guards.Length] == sel && guards[..guards.Length] == guards[..];
    }

    /**
      __sanitizer_cov_trace_pc_guard_init(); picks[i] stands for R(100) < ratio
      at guard i. A module whose first guard is set is left alone.
     */
    method GuardInit(guards: array<U32>, picks: seq<bool>, maps: bool) returns (o: Outcome, ghost loc: U32)
      requires Valid() && |picks| == guards.Length
      modifies this, guards
      ensures Valid()
      ensures old(overflowed) ==> overflowed
      ensures old(guards.Length == 0 || guards[0] != 0) ==> guards[..] == old(guards[..]) && issued == old(issued)
      ensures o.Fine? && old(guards.Length > 0 && guards[0] == 0) ==>
        && guards[..] == Wrapped(Numbered(loc, Selection(env, picks)))
        && (!overflowed ==>
              && old(finalLoc) <= loc <= finalLoc && 5 <= loc
              && loc + Count(Selection(env, picks)) < TWO_32
              && issued == old(issued) + NonZero(guards[..])
              && guards[0] >= 6
              && (forall i :: 0 < i < guards.Length ==>
                    (guards[i] != 0 <==> env.ratio.None? || env.ratio.value == 100 || picks[i]))
              && (shmReady ==> mapSize == finalLoc + 1 && Between(issued, 6, mapSize - 1)))
    {
      hide Increasing, Between, NonZero, Numbered, Count, Wrapped, Mapped, Standalone, StandaloneSize;
      o, loc := Fine, 0;
      if !env.dumpMapSize {
        o := AutoInit(maps);
        if o.Exits? { return; }
      }
      if guards.Length == 0 || guards[0] != 0 { return; }
      if env.ratio.Some? && (env.ratio.value == 0 || env.ratio.value > 100) { return Exits, loc; }
      BetweenGrows(issued, finalLoc);
      if finalLoc < 5 { finalLoc := 5; }
      loc := finalLoc;
      Number(guards, Selection(env, picks));
      o := GrowMap(maps);
    }

    /** The map follows the numbering, once it exists. */
    method GrowMap(maps: bool) returns (o: Outcome)
      requires Valid()
      modifies this`finalLoc, this`mapSize, this`shmReady, this`areaInitial, this`dummyInitial, this`overflowed
      ensures Valid()
      ensures old(overflowed) ==> overflowed
      ensures !overflowed ==> finalLoc >= old(finalLoc)
      ensures !overflowed && o.Fine? && shmReady ==> mapSize == finalLoc + 1
    {
      hide Mapped, Increasing, Between;
      if shmReady {
        if finalLoc > mapSize {
          UnmapShm();
          o := MapShm(maps);
          if o.Exits? { return; }
        }
        overflowed := overflowed || finalLoc + 1 == TWO_32;
        mapSize := Add32(finalLoc, 1);
      }
      return Fine;
    }
  }

  /** The first guard is always numbered, the others as the ratio has it. */
  function Selection(e: Env, picks: seq<bool>): (sel: seq<bool>)
    ensures |sel| == |picks|
  {
    seq(|picks|, i requires 0 <= i < |picks| => i == 0 || e.ratio.None? || e.ratio.value == 100 || picks[i])
  }
}
