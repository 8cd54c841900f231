/** The interrupt mailbox of the DesignWare MMC host: a word that holds a request generation and cached status
    bits, shared by interrupt handlers and tasks through atomic loads, stores and compare-exchange loops.

    The 64-bit word is in bijection with the pair it packs, so the protocol works on the pair.

    A step is one atomic access to the mailbox or the counter, or one register read. Any number of threads run any of
    the operations. One status bit, chosen freely, is tracked through the run by history variables that no step reads.
 */
module IrqMailbox {

  function PackMailbox(generation: bv32, status: bv32): bv64 {
    ((generation as bv64) << 32) | (status as bv64)
  }

  function GenerationOf(word: bv64): bv32 { (word >> 32) as bv32 }

  function StatusOf(word: bv64): bv32 { (word & 0xFFFF_FFFF) as bv32 }

  lemma PackRoundTrip(generation: bv32, status: bv32)
    ensures GenerationOf(PackMailbox(generation, status)) == generation
    ensures StatusOf(PackMailbox(generation, status)) == status
  {}

  lemma UnpackRoundTrip(word: bv64)
    ensures PackMailbox(GenerationOf(word), StatusOf(word)) == word
  {}

  datatype Word = Word(generation: nat, status: bv32)

  const LAST_GENERATION: nat := 0xFFFF_FFFF

  // ----- What the handler caches

  const IDMAC_DONE: bv32 := 0x3
  const IDMAC_ERROR: bv32 := 0x234
  const LATCH_COMPLETE: bv32 := 0x4000_0000
  const LATCH_ERROR: bv32 := 0x8000_0000

  /** The raw status with the enabled completion and error conditions of the internal DMA controller latched in. */
  function Latched(raw: bv32, idmac: bv32): bv32 {
    var complete: bv32 := if Done(idmac) then LATCH_COMPLETE else 0;
    var error: bv32 := if Failed(idmac) then LATCH_ERROR else 0;
    raw | complete | error
  }

  predicate Done(idmac: bv32) { idmac & IDMAC_DONE != 0 }

  predicate Failed(idmac: bv32) { idmac & IDMAC_ERROR != 0 }

  // ----- Threads

  /** What one run of the handler read. */
  datatype Registers = Registers(raw: bv32, dma: bv32, enabled: bv32)

  /** Where a thread is. History: `clean` records that every register read so far was made while the generation was
      current, and `read` the values that were read. */
  datatype Pc =
    | Idle
    | Handling(generation: nat)                                           // the handler has loaded the generation
    | Read(generation: nat, raw: bv32, clean: bool)                       // and read the interrupt status
    | ReadDma(generation: nat, raw: bv32, dma: bv32, clean: bool)         // and the DMA status
    | Latching(generation: nat, status: bv32, clean: bool, read: Registers)   // and the DMA enables
    // looping in `cache_if_current`
    | Caching(generation: nat, status: bv32, clean: bool, read: Registers, seen: Word)
    | Taking(mask: bv32, seen: Word)                                      // in the loop of `take`
    | Took(bits: bv32, generation: nat, origin: nat)                      // `take` returned `bits`
    | Clearing(mask: bv32, seen: Word)                                    // in the loop of `clear`
    | Numbering(last: nat)                                                // in the loop of `next_generation`
    | Beginning(generation: nat)                                          // about to store the new generation

  /** History: the generations ever stored, how often the tracked bit was cached, taken, cleared or dropped,
      and the generation under which it was read. */
  datatype History = History(installed: set<nat>, cached: nat, taken: nat, cleared: nat, dropped: nat, origin: nat)

  datatype State = State(word: Word, counter: nat, threads: map<nat, Pc>, history: History)

  type Bit = k: bv6 | k < 32

  predicate Has(status: bv32, bit: Bit) {
    (status >> bit) & 1 == 1
  }

  function Join(s: bv32, x: bv32): bv32 { s | x }

  function Within(s: bv32, mask: bv32): bv32 { s & mask }

  function Without(s: bv32, mask: bv32): bv32 { s & !mask }

  function Count(b: bool): nat { if b then 1 else 0 }

  ghost predicate Moves(s: State, s': State, i: nat, pc: Pc) {
    s' == s.(threads := s.threads[i := pc])
  }

  // ----- Steps of the handler

  ghost predicate LoadGeneration(s: State, s': State, i: nat) {
    i in s.threads && s.threads[i].Idle? && Moves(s, s', i, Handling(s.word.generation))
  }

  ghost predicate ReadStatus(s: State, s': State, i: nat, raw: bv32) {
    && i in s.threads && s.threads[i].Handling?
    && var g := s.threads[i].generation;
       Moves(s, s', i, Read(g, raw, s.word.generation == g))
  }

  ghost predicate ReadDmaStatus(s: State, s': State, i: nat, dma: bv32) {
    && i in s.threads && s.threads[i].Read?
    && var pc := s.threads[i];
       Moves(s, s', i, ReadDma(pc.generation, pc.raw, dma, pc.clean && s.word.generation == pc.generation))
  }

  ghost predicate ReadDmaEnable(s: State, s': State, i: nat, enabled: bv32) {
    && i in s.threads && s.threads[i].ReadDma?
    && var pc := s.threads[i];
       Moves(s, s', i, Latching(pc.generation, Latched(pc.raw, Within(pc.dma, enabled)),
                                pc.clean && s.word.generation == pc.generation,
                                Registers(pc.raw, pc.dma, enabled)))
  }

  /** Enters `cache_if_current`, which does nothing without a generation or without bits, and otherwise loads the
      word. */
  ghost predicate StartCache(s: State, s': State, i: nat) {
    && i in s.threads && s.threads[i].Latching?
    && var pc := s.threads[i];
       Moves(s, s', i, if pc.generation == 0 || pc.status == 0 then Idle
                       else Caching(pc.generation, pc.status, pc.clean, pc.read, s.word))
  }

  /** One round of the loop: give up when another generation was seen, else try to store; a failed exchange
      (`wins` false, possibly spurious) reloads the word. */
  ghost predicate Cache(s: State, s': State, i: nat, wins: bool, bit: Bit) {
    && i in s.threads && s.threads[i].Caching?
    && var pc := s.threads[i];
       if pc.seen.generation != pc.generation then Moves(s, s', i, Idle)
       else if wins then
         && s.word == pc.seen
         && s' == s.(word := Word(pc.generation, Join(pc.seen.status, pc.status)), threads := s.threads[i := Idle],
                     history := if Has(pc.status, bit)
                                then s.history.(cached := s.history.cached + Count(!Has(pc.seen.status, bit)),
                                                origin := if pc.clean then pc.generation else 0)
                                else s.history)
       else Moves(s, s', i, Caching(pc.generation, pc.status, pc.clean, pc.read, s.word))
  }

  // ----- Steps of a task

  ghost predicate StartTake(s: State, s': State, i: nat, mask: bv32) {
    i in s.threads && s.threads[i].Idle? && Moves(s, s', i, Taking(mask, s.word))
  }

  ghost predicate Take(s: State, s': State, i: nat, wins: bool, bit: Bit) {
    && i in s.threads && s.threads[i].Taking?
    && var pc := s.threads[i];
       var taken := Within(pc.seen.status, pc.mask);
       if taken == 0 then Moves(s, s', i, Took(0, pc.seen.generation, 0))
       else if wins then
         && s.word == pc.seen
         && s' == s.(word := Word(pc.seen.generation, Without(pc.seen.status, pc.mask)),
                     threads := s.threads[i := Took(taken, pc.seen.generation, s.history.origin)],
                     history := s.history.(taken := s.history.taken + Count(Has(taken, bit))))
       else Moves(s, s', i, Taking(pc.mask, s.word))
  }

  ghost predicate Return(s: State, s': State, i: nat) {
    i in s.threads && s.threads[i].Took? && Moves(s, s', i, Idle)
  }

  ghost predicate StartClear(s: State, s': State, i: nat, mask: bv32) {
    i in s.threads && s.threads[i].Idle? && Moves(s, s', i, Clearing(mask, s.word))
  }

  ghost predicate Clear(s: State, s': State, i: nat, wins: bool, bit: Bit) {
    && i in s.threads && s.threads[i].Clearing?
    && var pc := s.threads[i];
       if wins then
         && s.word == pc.seen
         && s' == s.(word := Word(pc.seen.generation, Without(pc.seen.status, pc.mask)),
            threads := s.threads[i := Idle],
                     history := s.history.(cleared := s.history.cleared +
                       Count(Has(pc.seen.status, bit) && Has(pc.mask, bit))))
       else Moves(s, s', i, Clearing(pc.mask, s.word))
  }

  ghost predicate StartBegin(s: State, s': State, i: nat) {
    i in s.threads && s.threads[i].Idle? && Moves(s, s', i, Numbering(s.counter))
  }

  /** Takes the next number. The counter is assumed not to wrap. */
  ghost predicate NextGeneration(s: State, s': State, i: nat, wins: bool) {
    && i in s.threads && s.threads[i].Numbering?
    && var pc := s.threads[i];
       if wins then
         && s.counter == pc.last && pc.last < LAST_GENERATION
         && s' == s.(counter := pc.last + 1, threads := s.threads[i := Beginning(pc.last + 1)])
       else Moves(s, s', i, Numbering(s.counter))
  }

  ghost predicate Begin(s: State, s': State, i: nat, bit: Bit) {
    && i in s.threads && s.threads[i].Beginning?
    && var g := s.threads[i].generation;
       s' == s.(word := Word(g, 0), threads := s.threads[i := Idle],
                history := s.history.(installed := s.history.installed + {g},
                                      dropped := s.history.dropped + Count(Has(s.word.status, bit))))
  }

  ghost predicate End(s: State, s': State, i: nat, bit: Bit) {
    && i in s.threads && s.threads[i].Idle?
    && s' == s.(word := Word(0, 0), history := s.history.(dropped := s.history.dropped +
       Count(Has(s.word.status, bit))))
  }

  ghost predicate StepOf(s: State, s': State, i: nat, bit: Bit) {
    || LoadGeneration(s, s', i) || (exists raw :: ReadStatus(s, s', i, raw)) || StartCache(s, s', i)
    || (exists dma :: ReadDmaStatus(s, s', i, dma)) || (exists enabled :: ReadDmaEnable(s, s', i, enabled))
    || (exists wins :: Cache(s, s', i, wins, bit))
    || (exists mask :: StartTake(s, s', i, mask)) || (exists wins :: Take(s, s', i, wins, bit)) || Return(s, s', i)
    || (exists mask :: StartClear(s, s', i, mask)) || (exists wins :: Clear(s, s', i, wins, bit))
    || StartBegin(s, s', i) || (exists wins :: NextGeneration(s, s', i, wins)) || Begin(s, s', i, bit) ||
       End(s, s', i, bit)
  }

  ghost predicate Next(s: State, s': State, bit: Bit) {
    exists i: nat :: StepOf(s, s', i, bit)
  }

  ghost predicate Init(s: State) {
    && s.word == Word(0, 0) && s.counter == 0 && s.history == History({}, 0, 0, 0, 0, 0)
    && forall i :: i in s.threads ==> s.threads[i].Idle?
  }

  // ----- Invariant

  /** A number that was handed out but not stored yet is new, and only one thread has it. */
  ghost predicate PendingNew(s: State) {
    && (forall i :: i in s.threads && s.threads[i].Beginning? ==> PendingAt(s, i))
    && (forall i, j :: i in s.threads && j in s.threads && i != j
                       && s.threads[i].Beginning? && s.threads[j].Beginning? ==>
          s.threads[i].generation != s.threads[j].generation)
  }

  predicate PendingAt(s: State, i: nat)
    requires i in s.threads && s.threads[i].Beginning?
  {
    var g := s.threads[i].generation;
    g != 0 && g <= s.counter && g !in s.history.installed
  }

  /** A handler's generation was stored at some time; while it still is, all its register reads were made under it. */
  ghost predicate HandlerOk(s: State, pc: Pc) {
    match pc
    case Handling(g) => g == 0 || g in s.history.installed
    case Read(g, _, clean) => ReadingOk(s, g, clean)
    case ReadDma(g, _, _, clean) => ReadingOk(s, g, clean)
    case Latching(g, status, clean, read) => ReadingOk(s, g, clean) && TellsAll(status, read)
    case Caching(g, status, clean, read, seen) =>
      && g != 0 && status != 0 && g in s.history.installed && (s.word.generation == g ==> clean)
      && TellsAll(status, read)
    case _ => true
  }

  /** A bit of the status the handler puts together from what it read: the raw bit; for bit 30 also an enabled
      receive or transmit completion of the DMA controller; for bit 31 also an enabled error of it. */
  predicate Tells(read: Registers, bit: Bit) {
    var dma := Within(read.dma, read.enabled);
    || Has(read.raw, bit)
    || (bit == 30 && (Has(dma, 0) || Has(dma, 1)))
    || (bit == 31 && (Has(dma, 2) || Has(dma, 4) || Has(dma, 5) || Has(dma, 9)))
  }

  ghost predicate TellsAll(status: bv32, read: Registers) {
    forall bit: Bit :: Has(status, bit) <==> Tells(read, bit)
  }

  lemma LatchedTells(read: Registers)
    ensures TellsAll(Latched(read.raw, Within(read.dma, read.enabled)), read)
  {
    hide Has, Latched, Within, Done, Failed;
    var dma := Within(read.dma, read.enabled);
    DoneBits(dma);
    ErrorBits(dma);
    forall bit: Bit
      ensures Has(Latched(read.raw, dma), bit) <==> Tells(read, bit)
    {
      LatchedBit(read.raw, dma, bit);
    }
  }

  lemma LatchedBit(raw: bv32, dma: bv32, bit: Bit)
    ensures Has(Latched(raw, dma), bit) <==> Has(raw, bit) || (bit == 30 && Done(dma)) || (bit == 31 && Failed(dma))
  {
    var complete: bv32 := if Done(dma) then LATCH_COMPLETE else 0;
    var error: bv32 := if Failed(dma) then LATCH_ERROR else 0;
    assert Latched(raw, dma) == Join(Join(raw, complete), error);
    hide Latched, Done, Failed;
    LatchBits(bit);
    HasNone(bit);
    HasJoin(raw, complete, bit);
    HasJoin(Join(raw, complete), error, bit);
    hide Has, Join;
  }

  lemma DoneBits(dma: bv32)
    ensures Done(dma) <==> Has(dma, 0) || Has(dma, 1)
  {}

  lemma ErrorBits(dma: bv32)
    ensures Failed(dma) <==> Has(dma, 2) || Has(dma, 4) || Has(dma, 5) || Has(dma, 9)
  {}

  lemma LatchBits(bit: Bit)
    ensures Has(LATCH_COMPLETE, bit) <==> bit == 30
    ensures Has(LATCH_ERROR, bit) <==> bit == 31
  {}

  predicate ReadingOk(s: State, g: nat, clean: bool) {
    (g == 0 || g in s.history.installed) && (s.word.generation == g && g != 0 ==> clean)
  }

  ghost predicate Inv(s: State, bit: Bit) {
    && PendingNew(s) && s.counter <= LAST_GENERATION
    && (forall g :: g in s.history.installed ==> g != 0 && g <= s.counter)
    && (s.word.generation == 0 || s.word.generation in s.history.installed)
    && (forall i :: i in s.threads ==> HandlerOk(s, s.threads[i]) && TookOk(s.threads[i], bit))
    && (Has(s.word.status, bit) ==> s.word.generation != 0 && s.history.origin == s.word.generation)
    && s.history.cached == s.history.taken + s.history.cleared + s.history.dropped + Count(Has(s.word.status, bit))
  }

  /** A taken bit was read under the generation of the request it was taken from. */
  predicate TookOk(pc: Pc, bit: Bit) {
    pc.Took? && Has(pc.bits, bit) ==> pc.generation != 0 && pc.origin == pc.generation
  }

  lemma HasJoin(s: bv32, x: bv32, bit: Bit)
    ensures Has(Join(s, x), bit) <==> Has(s, bit) || Has(x, bit)
  {}

  lemma HasWithin(s: bv32, x: bv32, bit: Bit)
    ensures Has(Within(s, x), bit) <==> Has(s, bit) && Has(x, bit)
  {}

  lemma HasWithout(s: bv32, x: bv32, bit: Bit)
    ensures Has(Without(s, x), bit) <==> Has(s, bit) && !Has(x, bit)
  {
    assert (s & !x) >> bit == (s >> bit) & !(x >> bit);
  }

  lemma HasNone(bit: Bit)
    ensures !Has(0, bit)
  {}

  lemma BitFacts(s: bv32, x: bv32, bit: Bit)
    ensures Has(Join(s, x), bit) <==> Has(s, bit) || Has(x, bit)
    ensures Has(Without(s, x), bit) <==> Has(s, bit) && !Has(x, bit)
    ensures Has(Within(s, x), bit) <==> Has(s, bit) && Has(x, bit)
    ensures !Has(0, bit)
  {
    hide *;
    HasJoin(s, x, bit);
    HasWithin(s, x, bit);
    HasWithout(s, x, bit);
    HasNone(bit);
  }

  /** Moving one thread without touching shared state. */
  lemma MoveKeepsInv(s: State, s': State, bit: Bit, i: nat, pc: Pc)
    requires Inv(s, bit) && i in s.threads && Moves(s, s', i, pc) && !pc.Beginning?
    requires HandlerOk(s, pc) && TookOk(pc, bit)
    ensures Inv(s', bit)
  {
    hide Has, TookOk, TellsAll;
  }

  lemma HandlerKeepsInv(s: State, s': State, bit: Bit, i: nat, x: bv32)
    requires Inv(s, bit)
    requires LoadGeneration(s, s', i) || ReadStatus(s, s', i, x) || ReadDmaStatus(s, s', i, x) ||
             ReadDmaEnable(s, s', i, x) || StartCache(s, s', i)
    ensures Inv(s', bit)
  {
    hide Has, Latched, TellsAll;
    assert HandlerOk(s, s.threads[i]);
    if s.threads[i].ReadDma? {
      LatchedTells(Registers(s.threads[i].raw, s.threads[i].dma, x));
    }
    MoveKeepsInv(s, s', bit, i, s'.threads[i]);
  }

  lemma CacheKeepsInv(s: State, s': State, bit: Bit, i: nat, wins: bool)
    requires Inv(s, bit) && Cache(s, s', i, wins, bit)
    ensures Inv(s', bit)
  {
    hide Has, Join, Within, Without, TellsAll;
    var pc := s.threads[i];
    assert HandlerOk(s, pc);
    if pc.seen.generation != pc.generation || !wins {
      MoveKeepsInv(s, s', bit, i, s'.threads[i]);
    } else {
      BitFacts(pc.seen.status, pc.status, bit);
    }
  }

  lemma TakeKeepsInv(s: State, s': State, bit: Bit, i: nat, wins: bool)
    requires Inv(s, bit) && Take(s, s', i, wins, bit)
    ensures Inv(s', bit)
  {
    hide Has, Join, Within, Without, TellsAll;
    var pc := s.threads[i];
    BitFacts(pc.seen.status, pc.mask, bit);
    if Within(pc.seen.status, pc.mask) == 0 || !wins {
      MoveKeepsInv(s, s', bit, i, s'.threads[i]);
    } else {
    }
  }

  lemma ClearKeepsInv(s: State, s': State, bit: Bit, i: nat, wins: bool)
    requires Inv(s, bit) && Clear(s, s', i, wins, bit)
    ensures Inv(s', bit)
  {
    hide Has, Join, Within, Without, TellsAll;
    var pc := s.threads[i];
    BitFacts(pc.seen.status, pc.mask, bit);
    if !wins {
      MoveKeepsInv(s, s', bit, i, s'.threads[i]);
    } else {
    }
  }

  lemma StartKeepsInv(s: State, s': State, bit: Bit, i: nat, mask: bv32)
    requires Inv(s, bit)
    requires StartTake(s, s', i, mask) || StartClear(s, s', i, mask) || StartBegin(s, s', i) || Return(s, s', i)
    ensures Inv(s', bit)
  {
    hide Has, Join, Within, Without, TellsAll;
    MoveKeepsInv(s, s', bit, i, s'.threads[i]);
  }

  lemma NextGenerationKeepsInv(s: State, s': State, bit: Bit, i: nat, wins: bool)
    requires Inv(s, bit) && NextGeneration(s, s', i, wins)
    ensures Inv(s', bit)
  {
    hide Has, Join, Within, Without, TellsAll;
    if !wins {
      MoveKeepsInv(s, s', bit, i, s'.threads[i]);
    } else {
      assert forall j :: j in s.threads && s.threads[j].Beginning? ==> PendingAt(s, j);
    }
  }

  lemma BeginKeepsInv(s: State, s': State, bit: Bit, i: nat)
    requires Inv(s, bit) && Begin(s, s', i, bit)
    ensures Inv(s', bit)
  {
    hide Has, Join, Within, Without, TellsAll;
    assert PendingAt(s, i);
    BitFacts(0, 0, bit);
    assert forall j :: j in s.threads && s.threads[j].Beginning? ==> PendingAt(s, j);
  }

  lemma EndKeepsInv(s: State, s': State, bit: Bit, i: nat)
    requires Inv(s, bit) && End(s, s', i, bit)
    ensures Inv(s', bit)
  {
    hide Has, Join, Within, Without, TellsAll;
    BitFacts(0, 0, bit);
    assert forall j :: j in s.threads && s.threads[j].Beginning? ==> PendingAt(s, j);
  }

  lemma NextKeepsInv(s: State, s': State, bit: Bit)
    requires Inv(s, bit) && Next(s, s', bit)
    ensures Inv(s', bit)
  {
    hide Inv, LoadGeneration, ReadStatus, ReadDmaStatus, ReadDmaEnable, StartCache, Cache, StartTake, Take, Return,
         StartClear, Clear, StartBegin;
    hide NextGeneration, Begin, End;
    var i: nat :| StepOf(s, s', i, bit);
    if LoadGeneration(s, s', i) { HandlerKeepsInv(s, s', bit, i, 0); }
    else if raw :| ReadStatus(s, s', i, raw) { HandlerKeepsInv(s, s', bit, i, raw); }
    else if dma :| ReadDmaStatus(s, s', i, dma) { HandlerKeepsInv(s, s', bit, i, dma); }
    else if enabled :| ReadDmaEnable(s, s', i, enabled) { HandlerKeepsInv(s, s', bit, i, enabled); }
    else if StartCache(s, s', i) { HandlerKeepsInv(s, s', bit, i, 0); }
    else if wins :| Cache(s, s', i, wins, bit) { CacheKeepsInv(s, s', bit, i, wins); }
    else if mask :| StartTake(s, s', i, mask) { StartKeepsInv(s, s', bit, i, mask); }
    else if wins :| Take(s, s', i, wins, bit) { TakeKeepsInv(s, s', bit, i, wins); }
    else if Return(s, s', i) { StartKeepsInv(s, s', bit, i, 0); }
    else if mask :| StartClear(s, s', i, mask) { StartKeepsInv(s, s', bit, i, mask); }
    else if wins :| Clear(s, s', i, wins, bit) { ClearKeepsInv(s, s', bit, i, wins); }
    else if StartBegin(s, s', i) { StartKeepsInv(s, s', bit, i, 0); }
    else if wins :| NextGeneration(s, s', i, wins) { NextGenerationKeepsInv(s, s', bit, i, wins); }
    else if Begin(s, s', i, bit) { BeginKeepsInv(s, s', bit, i); }
    else { EndKeepsInv(s, s', bit, i); }
  }

  // ----- Runs

  ghost predicate Run(states: seq<State>, bit: Bit) {
    && |states| > 0 && Init(states[0])
    && forall k :: 0 <= k < |states| - 1 ==> Next(states[k], states[k + 1], bit)
  }

  lemma InitHasInv(s: State, bit: Bit)
    requires Init(s)
    ensures Inv(s, bit)
  {
    hide Has, Join, Within, Without;
    BitFacts(0, 0, bit);
  }

  lemma {:induction false} RunKeepsInv(states: seq<State>, bit: Bit, k: nat)
    requires Run(states, bit) && k < |states|
    ensures Inv(states[k], bit)
  {
    hide Inv, Next, Init;
    if k == 0 {
      InitHasInv(states[0], bit);
    } else {
      RunKeepsInv(states, bit, k - 1);
      assert Next(states[k - 1], states[k - 1 + 1], bit);
      NextKeepsInv(states[k - 1], states[k], bit);
    }
  }

  /** Bits go into the mailbox only when every register read was made while the request was current. */
  lemma CachedWhileCurrent(states: seq<State>, bit: Bit, k: nat, i: nat)
    requires Run(states, bit) && k + 1 < |states| && Cache(states[k], states[k + 1], i, true, bit)
    requires states[k + 1].word != states[k].word
    ensures states[k].threads[i].clean
    ensures states[k + 1].word.generation == states[k].word.generation == states[k].threads[i].generation
  {
    RunKeepsInv(states, bit, k);
    assert HandlerOk(states[k], states[k].threads[i]);
  }

  /** A winning round joins in, bit by bit, exactly what was read: no bit is lost and none is made up. */
  lemma CachedAsRead(states: seq<State>, bit: Bit, k: nat, i: nat, other: Bit)
    requires Run(states, bit) && k + 1 < |states| && Cache(states[k], states[k + 1], i, true, bit)
    requires states[k].threads[i].seen.generation == states[k].threads[i].generation
    ensures Has(states[k + 1].word.status, other) <==>
            Has(states[k].word.status, other) || Tells(states[k].threads[i].read, other)
  {
    RunKeepsInv(states, bit, k);
    var pc := states[k].threads[i];
    assert HandlerOk(states[k], pc);
    HasJoin(pc.seen.status, pc.status, other);
    hide Has, Tells, Join;
    assert Has(pc.status, other) <==> Tells(pc.read, other);
  }

  /** The handler passes over the mailbox exactly without a request or with nothing to tell. */
  lemma PassedOver(states: seq<State>, bit: Bit, k: nat, i: nat)
    requires Run(states, bit) && k + 1 < |states| && StartCache(states[k], states[k + 1], i)
    ensures var pc := states[k].threads[i];
            states[k + 1].threads[i].Idle? <==> pc.generation == 0 || forall other: Bit :: !Tells(pc.read, other)
  {
    RunKeepsInv(states, bit, k);
    var pc := states[k].threads[i];
    assert HandlerOk(states[k], pc);
    SomeBit(pc.status);
    hide Tells;
    assert forall other: Bit :: Has(pc.status, other) <==> Tells(pc.read, other);
  }

  lemma SomeBit(x: bv32)
    ensures x != 0 <==> exists bit: Bit :: Has(x, bit)
  {
    hide Has;
    if forall bit: Bit :: !Has(x, bit) {
      NoBits(x);
    } else {
      var bit: Bit :| Has(x, bit);
      HasNone(bit);
    }
  }

  lemma NoBits(x: bv32)
    requires forall bit: Bit :: !Has(x, bit)
    ensures x == 0
  {
    assert !Has(x, 0) && !Has(x, 1) && !Has(x, 2) && !Has(x, 3) && !Has(x, 4) && !Has(x, 5) && !Has(x, 6) && !Has(x, 7);
    assert x & 0xFF == 0;
    assert !Has(x, 8) && !Has(x, 9) && !Has(x, 10) && !Has(x, 11) && !Has(x, 12) && !Has(x, 13) && !Has(x, 14);
    assert !Has(x, 15) && !Has(x, 16) && !Has(x, 17) && !Has(x, 18) && !Has(x, 19) && !Has(x, 20) && !Has(x, 21);
    assert !Has(x, 22) && !Has(x, 23) && !Has(x, 24) && !Has(x, 25) && !Has(x, 26) && !Has(x, 27) && !Has(x, 28);
    assert !Has(x, 29) && !Has(x, 30) && !Has(x, 31);
  }

  /** Bits in the mailbox, and bits a task takes out, were read under the generation of the request that gets them. */
  lemma StaleBitsNeverArrive(states: seq<State>, bit: Bit, k: nat, i: nat)
    requires Run(states, bit) && k < |states| && i in states[k].threads
    ensures var s := states[k];
            && (Has(s.word.status, bit) ==> s.word.generation != 0 && s.history.origin == s.word.generation)
            && (s.threads[i].Took? && Has(s.threads[i].bits, bit) ==>
                  s.threads[i].generation != 0 && s.threads[i].origin == s.threads[i].generation)
  {
    RunKeepsInv(states, bit, k);
  }

  /** A take that ends returns, bit by bit, what it saw under its mask, and the word loses exactly that. */
  lemma TakenExactly(s: State, s': State, bit: Bit, i: nat, wins: bool, other: Bit)
    requires Take(s, s', i, wins, bit) && s'.threads[i].Took?
    ensures var pc, took := s.threads[i], s'.threads[i];
            && took.generation == pc.seen.generation && s'.word.generation == s.word.generation
            && (Has(took.bits, other) <==> Has(pc.seen.status, other) && Has(pc.mask, other))
            && (Has(s'.word.status, other) <==> Has(s.word.status, other) && !Has(took.bits, other))
            && (took.bits != 0 ==> s.word == pc.seen)
  {
    hide Has, Join, Within, Without;
    BitFacts(s.threads[i].seen.status, s.threads[i].mask, other);
  }

  /** A clear that ends takes exactly the bits of its mask out of the word. */
  lemma ClearedExactly(s: State, s': State, bit: Bit, i: nat, other: Bit)
    requires Clear(s, s', i, true, bit)
    ensures s'.word.generation == s.word.generation
    ensures Has(s'.word.status, other) <==> Has(s.word.status, other) && !Has(s.threads[i].mask, other)
  {
    hide Has, Join, Within, Without;
    BitFacts(s.word.status, s.threads[i].mask, other);
  }

  /** Every appearance of a bit ends in exactly one take, clear, begin or end, or the bit is still there. */
  lemma BitsAreConserved(states: seq<State>, bit: Bit, k: nat)
    requires Run(states, bit) && k < |states|
    ensures var s := states[k];
            && s.history.cached == s.history.taken + s.history.cleared + s.history.dropped +
               Count(Has(s.word.status, bit))
            && s.history.taken <= s.history.cached
  {
    RunKeepsInv(states, bit, k);
  }

  /** A number that is taken is the next one, was never stored, and fits the upper half of the word. */
  lemma NumbersAreFresh(states: seq<State>, bit: Bit, k: nat, i: nat)
    requires Run(states, bit) && k + 1 < |states| && NextGeneration(states[k], states[k + 1], i, true)
    ensures var s, s' := states[k], states[k + 1];
            && s'.threads[i] == Beginning(s.counter + 1) && s'.counter == s.counter + 1 && s'.word == s.word
            && 0 < s.counter + 1 < 0x1_0000_0000 && s.counter + 1 !in s.history.installed
  {
    RunKeepsInv(states, bit, k);
    hide Has, Join, Within, Without, TellsAll;
  }

  /** A request's generation is stored once: when another word has replaced it, it never comes back. */
  lemma GenerationNeverReturns(states: seq<State>, bit: Bit, k: nat, i: nat)
    requires Run(states, bit) && k + 1 < |states| && Begin(states[k], states[k + 1], i, bit)
    ensures states[k + 1].word.generation !in states[k].history.installed
    ensures states[k].word.generation != states[k + 1].word.generation
  {
    RunKeepsInv(states, bit, k);
    hide Has, Join, Within, Without;
    assert PendingAt(states[k], i);
  }
}
