/**
  The option handshake between a target (afl-compiler-rt.o.c) and the fuzzer
  (afl-forkserver.c): the target offers, the fuzzer answers with at most one
  word, and from then on every control word is meant as a run request.
 */
module Handshake {
  import opened Machine

  const MAX_MAPSIZE: nat := 0x80_0000
  const MAP_SIZE: nat := 0x1_0000

  const ENABLED: U32 := 0x8000_0001
  const MAPSIZE: U32 := 0x4000_0000
  const AUTODICT: U32 := 0x1000_0000
  const NEWCMPLOG: U32 := 0x0200_0000
  const SHDMEM_FUZZ: U32 := 0x0100_0000

  /** What a target is linked with. */
  datatype Target = Target(mapSize: U32, dictionary: Bytes, sharedCase: bool, persistent: bool)

  /** What a fuzzer (or afl-showmap, or a cmplog instance) is set up for. */
  datatype Fuzzer = Fuzzer(sharedCase: bool, ignoresDictionary: bool, takesDictionary: bool, mapSize: U32, cmplog: bool)

  function SetMapSize(x: U32): U32 { if x <= 1 || x > MAX_MAPSIZE then 0 else 2 * (x - 1) }

  function GetMapSize(w: U32): U32 { w % 0x0100_0000 / 2 + 1 }

  predicate IsEnabled(w: U32) { w / 0x8000_0000 == 1 && w % 2 == 1 }

  predicate HasMapSize(w: U32) { w / 0x4000_0000 % 2 == 1 }

  predicate HasDictionary(w: U32) { w / 0x1000_0000 % 2 == 1 }

  predicate HasNewCmplog(w: U32) { w / 0x0200_0000 % 2 == 1 }

  predicate HasSharedCase(w: U32) { w / 0x0100_0000 % 2 == 1 }

  /** All bits of FS_OPT_ERROR are set. */
  predicate IsError(w: U32) { w / 0x0800_0000 == 0x1f && w / 0x80 % 2 == 1 && w % 0x10 == 0xf }

  /** FS_OPT_OLD_AFLPP_WORKAROUND: some versions set these four bits together. */
  function WorkedAround(w: U32): U32 {
    if w / 0x0100_0000 % 0x10 == 0xf then w - 0x0f00_0000 else w
  }

  /** status_for_fsrv: the options have a bit each, so adding them up sets the bits. */
  function Offer(t: Target): U32 {
    var size := if t.mapSize <= MAX_MAPSIZE then SetMapSize(t.mapSize) + MAPSIZE else 0;
    var dict := if t.dictionary != [] then AUTODICT else 0;
    var shared := if t.sharedCase then SHDMEM_FUZZ else 0;
    var options := size + dict + shared;
    if options == 0 then 0 else options + ENABLED + NEWCMPLOG
  }

  predicate OffersExtras(t: Target) { t.sharedCase || t.dictionary != [] }

  /** The fuzzer reads back what the target put into the offer. */
  lemma OfferReadBack(t: Target)
    ensures !IsError(Offer(t))
    ensures IsEnabled(Offer(t)) <==> t.mapSize <= MAX_MAPSIZE || OffersExtras(t)
    ensures WorkedAround(Offer(t)) == Offer(t)
    ensures HasDictionary(Offer(t)) <==> t.dictionary != []
    ensures HasSharedCase(Offer(t)) <==> t.sharedCase
    ensures HasMapSize(Offer(t)) <==> t.mapSize <= MAX_MAPSIZE
    ensures IsEnabled(Offer(t)) ==> HasNewCmplog(Offer(t))
    ensures t.mapSize <= MAX_MAPSIZE ==> GetMapSize(Offer(t)) == OfferedSize(t)
  {
    hide Offer, SetMapSize;
    OfferBytes(t);
    SizeReadBack(t.mapSize);
    var lo := SetMapSize(t.mapSize) + 1;
    match (t.mapSize <= MAX_MAPSIZE, t.dictionary != [], t.sharedCase)
    case (true, true, true) => HighByte(Offer(t), 0xd3, lo);
    case (true, true, false) => HighByte(Offer(t), 0xd2, lo);
    case (true, false, true) => HighByte(Offer(t), 0xc3, lo);
    case (true, false, false) => HighByte(Offer(t), 0xc2, lo);
    case (false, true, true) => HighByte(Offer(t), 0x93, 1);
    case (false, true, false) => HighByte(Offer(t), 0x92, 1);
    case (false, false, true) => HighByte(Offer(t), 0x83, 1);
    case (false, false, false) =>
  }

  function OfferExtras(t: Target): nat {
    (if t.dictionary != [] then 0x10 else 0) + (if t.sharedCase then 0x1 else 0)
  }

  /** An offer is a byte of options above the size. */
  lemma OfferBytes(t: Target)
    ensures Offer(t) ==
      if t.mapSize <= MAX_MAPSIZE then (0xc2 + OfferExtras(t)) * 0x0100_0000 + (SetMapSize(t.mapSize) + 1)
      else if OffersExtras(t) then (0x82 + OfferExtras(t)) * 0x0100_0000 + 1
      else 0
  {
    hide SetMapSize;
  }

  lemma SizeReadBack(size: U32)
    ensures SetMapSize(size) + 1 < 0x0100_0000 && SetMapSize(size) % 2 == 0
    ensures size <= MAX_MAPSIZE ==> (SetMapSize(size) + 1) / 2 + 1 == if size == 0 then 1 else size
  {
  }

  /** The option bits sit in the highest byte. */
  lemma HighByte(w: U32, hi: nat, lo: nat)
    requires hi < 0x100 && lo < 0x0100_0000 && w == hi * 0x0100_0000 + lo
    ensures w / 0x8000_0000 == hi / 0x80 && w / 0x4000_0000 == hi / 0x40 && w / 0x1000_0000 == hi / 0x10
    ensures w / 0x0800_0000 == hi / 0x8 && w / 0x0200_0000 == hi / 0x2 && w / 0x0100_0000 == hi
    ensures w % 0x0100_0000 == lo && w % 2 == lo % 2
  {
  }

  // ---- the target's side ----

  predicate WantsSharedCase(w: U32) { IsEnabled(w) && HasSharedCase(w) }

  predicate SendsDictionary(t: Target, w: U32) { t.dictionary != [] && IsEnabled(w) && HasDictionary(w) }

  /** already_read_first: the reply is kept and used as the first run request. */
  predicate Carries(t: Target, w: U32) { !SendsDictionary(t, w) && !WantsSharedCase(w) }

  /** The control words that the target serves as run requests. */
  function Served(t: Target, words: seq<U32>): seq<U32> {
    if !OffersExtras(t) || words == [] then words
    else if Carries(t, words[0]) then words
    else words[1..]
  }

  // ---- the fuzzer's side ----

  datatype Reply = Fatal | Replies(words: seq<U32>, readsDictionary: bool, mapSize: nat)

  function RoundedUp(size: nat): nat { (size + 63) / 64 * 64 }

  /** What afl_fsrv_start() does with the offer. */
  function FuzzerReply(f: Fuzzer, offer: U32): Reply {
    if IsError(offer) then Fatal
    else if !IsEnabled(offer) then Replies([], false, f.mapSize)
    else
      var status := WorkedAround(offer);
      var shared := HasSharedCase(status);
      var limit := if f.mapSize == 0 then MAP_SIZE else f.mapSize;
      if !HasNewCmplog(status) && f.cmplog then Fatal
      else if shared && !f.sharedCase then Fatal
      else if HasMapSize(status) && RoundedUp(GetMapSize(status)) > limit then Fatal
      else
        var size := if HasMapSize(status) then RoundedUp(GetMapSize(status)) else f.mapSize;
        var accepted: U32 := ENABLED + if shared then SHDMEM_FUZZ else 0;
        if !HasDictionary(status) || f.ignoresDictionary then
          Replies(if shared then [accepted] else [], false, size)
        else if !f.takesDictionary then
          Replies([accepted], false, size)
        else
          Replies([accepted + AUTODICT], true, size)
  }

  // ---- both sides together ----

  /**
    The target serves exactly the run requests of the fuzzer, and the dictionary
    is sent exactly when the fuzzer is about to read it.
   */
  predicate InStep(t: Target, reply: Reply, requests: seq<U32>)
    requires reply.Replies?
  {
    var words := reply.words + requests;
    && Served(t, words) == requests
    && reply.readsDictionary == (OffersExtras(t) && words != [] && SendsDictionary(t, words[0]))
  }

  /** A fuzzer that turns the dictionary down, without a shared test case to agree on. */
  predicate BareRefusal(t: Target, f: Fuzzer) {
    t.dictionary != [] && !t.sharedCase && !f.ignoresDictionary && !f.takesDictionary
  }

  /**
    The two sides stay in step exactly when the fuzzer does not send a bare
    refusal; a bare refusal is itself served, as one run too many.
   */
  lemma InStepUnlessBareRefusal(t: Target, f: Fuzzer, requests: seq<U32>)
    requires FuzzerReply(f, Offer(t)).Replies?
    requires forall i :: 0 <= i < |requests| ==> requests[i] <= 1
    ensures InStep(t, FuzzerReply(f, Offer(t)), requests) <==> !BareRefusal(t, f)
    ensures BareRefusal(t, f) ==>
      Served(t, FuzzerReply(f, Offer(t)).words + requests) == [ENABLED] + requests
  {
    hide Offer, FuzzerReply, IsEnabled, HasDictionary, HasSharedCase;
    ReplyToTarget(t, f);
    ReplyWords();
    var reply := FuzzerReply(f, Offer(t));
    var words := reply.words + requests;
    if reply.words == [] {
      assert words == requests;
    } else {
      assert words[1..] == requests;
    }
  }

  /** A fuzzer that takes no dictionaries, and a target that offers one. */
  lemma BareRefusalExample()
    ensures
      var t := Target(0x1_0000, [1, 2], false, false);
      var f := Fuzzer(true, false, false, 0x1_0000, false);
      var reply := FuzzerReply(f, Offer(t));
      && reply.Replies? && BareRefusal(t, f)
      && !InStep(t, reply, [0]) && Served(t, reply.words + [0]) == [ENABLED, 0]
  {
    var t := Target(0x1_0000, [1, 2], false, false);
    var f := Fuzzer(true, false, false, 0x1_0000, false);
    OfferReadBack(t);
    InStepUnlessBareRefusal(t, f, [0]);
  }

  lemma ReplyToTarget(t: Target, f: Fuzzer)
    requires FuzzerReply(f, Offer(t)).Replies?
    ensures
      var r := FuzzerReply(f, Offer(t));
      && r.readsDictionary == (t.dictionary != [] && !f.ignoresDictionary && f.takesDictionary)
      && (r.words == if r.readsDictionary then [ENABLED + (if t.sharedCase then SHDMEM_FUZZ else 0) + AUTODICT]
                     else if t.sharedCase then [ENABLED + SHDMEM_FUZZ]
                     else if BareRefusal(t, f) then [ENABLED]
                     else [])
  {
    hide Offer;
    OfferReadBack(t);
  }

  /** The size the fuzzer reads out of an offer; 0 cannot be told from 1. */
  function OfferedSize(t: Target): nat { if t.mapSize == 0 then 1 else t.mapSize }

  /**
    The fuzzer gives up on a target exactly when the target wants shared test
    cases and the fuzzer has none, or when the target's map is too large.
   */
  lemma GivesUp(t: Target, f: Fuzzer)
    ensures
      var limit := if f.mapSize == 0 then MAP_SIZE else f.mapSize;
      FuzzerReply(f, Offer(t)).Fatal? <==>
        || (t.sharedCase && !f.sharedCase)
        || (t.mapSize <= MAX_MAPSIZE && RoundedUp(OfferedSize(t)) > limit)
  {
    hide Offer;
    OfferReadBack(t);
  }

  lemma ReplyWords()
    ensures forall w: U32 {:trigger IsEnabled(w)} :: w <= 1 ==> !IsEnabled(w)
    ensures IsEnabled(ENABLED) && !HasDictionary(ENABLED) && !HasSharedCase(ENABLED)
    ensures var w := ENABLED + SHDMEM_FUZZ; IsEnabled(w) && !HasDictionary(w) && HasSharedCase(w)
    ensures var w := ENABLED + AUTODICT; IsEnabled(w) && HasDictionary(w) && !HasSharedCase(w)
    ensures var w := ENABLED + SHDMEM_FUZZ + AUTODICT; IsEnabled(w) && HasDictionary(w) && HasSharedCase(w)
  {
  }

  /** The map size the fuzzer works with holds the target's map, in whole cache
      lines; a target too large to say its size leaves the fuzzer's own. */
  lemma AgreedMapSize(t: Target, f: Fuzzer)
    requires FuzzerReply(f, Offer(t)).Replies?
    ensures
      var size := FuzzerReply(f, Offer(t)).mapSize;
      if t.mapSize > MAX_MAPSIZE then size == f.mapSize
      else OfferedSize(t) <= size < OfferedSize(t) + 64 && size % 64 == 0
  {
    hide Offer;
    OfferReadBack(t);
  }
}
