/** The pipeline window: which instruction owns which decoder, and how far it has come. */
module WindowModel {
  import opened Powers
  import opened DispatchModel

  const PIPELINE_SIZE := 4
  const IDS := 16

  /** An instruction as its decoder sees it: what it will push, and the ticks that takes. */
  datatype Instr = Instr(item: Item, ticks: nat)

  datatype Stage = Idle | Decoding(left: nat) | Finished

  datatype PipeLineDecoder = PipeLineDecoder(id: nat, tickCount: nat, stage: Stage, instr: Instr) {
    /** One tick of a decoder that has started. */
    function Tick(): PipeLineDecoder
    {
      var next := match stage
        case Idle => Idle
        case Decoding(left) => if left <= 1 then Finished else Decoding(left - 1)
        case Finished => Finished;
      this.(tickCount := tickCount + 1, stage := next)
    }

    /** The first tick, which loads the instruction. */
    function Start(start: nat, next: Instr): PipeLineDecoder
    {
      PipeLineDecoder(start, tickCount + 1, if next.ticks <= 1 then Finished else Decoding(next.ticks - 1), next)
    }

    function Reset(): PipeLineDecoder
    {
      this.(stage := Idle)
    }
  }

  function NextExecID(id: nat): nat
  {
    (id + 1) % IDS
  }

  /** Where a decoder stands that began an instruction of so many ticks some ticks ago. */
  function StageAt(ticks: nat, age: nat): Stage
  {
    if age + 1 >= ticks then Finished else Decoding(ticks - 1 - age)
  }

  /** The one instruction number in [done, done + 4) that slot k can hold. */
  function Owner(k: nat, done: nat): (i: nat)
    requires k < PIPELINE_SIZE
    ensures done <= i < done + PIPELINE_SIZE && i % PIPELINE_SIZE == k
  {
    var offset := done % PIPELINE_SIZE;
    if k >= offset then done - offset + k else done - offset + PIPELINE_SIZE + k
  }

  lemma OwnerUnique(k: nat, done: nat, i: nat)
    requires k < PIPELINE_SIZE && done <= i < done + PIPELINE_SIZE
    ensures i % PIPELINE_SIZE == k <==> Owner(k, done) == i
  {
  }

  lemma OwnerNext(k: nat, done: nat)
    requires k < PIPELINE_SIZE
    ensures Owner(k, done + 1) == if k == done % PIPELINE_SIZE then done + PIPELINE_SIZE else Owner(k, done)
  {
    hide Owner;
    OwnerUnique(k, done + 1, if k == done % PIPELINE_SIZE then done + PIPELINE_SIZE else Owner(k, done));
  }

  /**
   Execution waits for the instruction at the base of the window, or, after a flush, for one
   that has left it: so far behind that none of the ids in flight is the awaited one.
   */
  predicate Awaited(base: nat, done: nat)
  {
    base == done || done < base <= done + IDS - PIPELINE_SIZE
  }

  /** Sixteen ids are enough to tell the four instructions in flight apart. */
  lemma IdsTellApart(i: nat, done: nat)
    requires done <= i < done + PIPELINE_SIZE
    ensures i % IDS == done % IDS <==> i == done
  {
  }

  lemma IdsDiffer(i: nat, done: nat)
    requires done < i < done + IDS
    ensures i % IDS != done % IDS
  {
  }

  lemma NextId(n: nat)
    ensures NextExecID(n % IDS) == (n + 1) % IDS
    ensures (n % PIPELINE_SIZE + 1) % PIPELINE_SIZE == (n + 1) % PIPELINE_SIZE
  {
    NextRemainder(n, IDS);
    NextRemainder(n, PIPELINE_SIZE);
  }

  lemma NextRemainder(n: nat, m: nat)
    requires m > 1
    ensures (n % m + 1) % m == (n + 1) % m
  {
    var q, r := n / m, n % m;
    DivModIdentity(n, m);
    if r + 1 < m {
      DivModUnique(n + 1, m, q, r + 1);
      DivModUnique(r + 1, m, 0, r + 1);
    } else {
      Distribute(m, q, 1);
      DivModUnique(n + 1, m, q + 1, 0);
      DivModUnique(m, m, 1, 0);
    }
  }

  /** Slot k holds its instruction of the window, as far decoded as its age says, or is idle. */
  ghost predicate Slot(d: PipeLineDecoder, k: nat, begun: seq<Instr>, born: seq<nat>, done: nat, now: nat)
    requires k < PIPELINE_SIZE && |begun| == |born|
  {
    var i := Owner(k, done);
    if i < |begun| then
      born[i] <= now && d.id == i % IDS && d.instr == begun[i] && d.stage == StageAt(begun[i].ticks, now - born[i])
    else
      d.stage == Idle
  }

  /** Slots below k have seen the tick `now`; the others have not yet. */
  ghost predicate Slots(decoders: seq<PipeLineDecoder>, begun: seq<Instr>, born: seq<nat>, done: nat, now: nat, k: nat)
    requires |begun| == |born|
  {
    && |decoders| == PIPELINE_SIZE && now > 0
    && forall j :: 0 <= j < PIPELINE_SIZE ==> Slot(decoders[j], j, begun, born, done, if j < k then now else now - 1)
  }

  lemma SlotTicks(d: PipeLineDecoder, k: nat, begun: seq<Instr>, born: seq<nat>, done: nat, now: nat)
    requires k < PIPELINE_SIZE && |begun| == |born| && now > 0 && Slot(d, k, begun, born, done, now - 1)
    ensures d.stage.Idle? ==> Slot(d, k, begun, born, done, now)
    ensures !d.stage.Idle? ==> Slot(d.Tick(), k, begun, born, done, now)
  {
    hide Owner;
  }

  /** The oldest instruction of the window sits in slot k and has had its ticks. */
  ghost predicate Due(k: nat, begun: seq<Instr>, born: seq<nat>, done: nat, now: nat)
    requires k < PIPELINE_SIZE && |begun| == |born|
  {
    Owner(k, done) == done < |begun| && born[done] <= now && now - born[done] + 1 >= begun[done].ticks
  }

  /** What slot k is like after its tick, and which instruction it may give to execution. */
  lemma TickSlot(decoders: seq<PipeLineDecoder>, begun: seq<Instr>, born: seq<nat>, base: nat, now: nat, k: nat, done: nat)
    requires k < PIPELINE_SIZE && |begun| == |born| && Slots(decoders, begun, born, base, now, k) && Awaited(base, done)
    ensures |decoders| == PIPELINE_SIZE
    ensures decoders[k].stage.Idle? ==> Slots(decoders, begun, born, base, now, k + 1)
                                        && !(base == done && Due(k, begun, born, done, now))
    ensures var d := decoders[k].Tick();
            !decoders[k].stage.Idle? ==>
              && Slots(decoders[k := d], begun, born, base, now, k + 1)
              && (d.stage == Finished && d.id == done % IDS <==> base == done && Due(k, begun, born, done, now))
              && (base == done && Due(k, begun, born, done, now) ==>
                    done < |begun| && Owner(k, done) == done && d.instr == begun[done])
  {
    hide StageAt, Owner;
    var d := decoders[k];
    assert Slot(d, k, begun, born, base, now - 1);
    SlotTicks(d, k, begun, born, base, now);
    MayExecute(if d.stage.Idle? then d else d.Tick(), k, begun, born, base, now, done);
  }

  /**
   Executing is allowed for the oldest instruction alone, once it is decoded, and for none
   when the instruction that execution waits for is no longer in the window.
   */
  lemma MayExecute(d: PipeLineDecoder, k: nat, begun: seq<Instr>, born: seq<nat>, base: nat, now: nat, done: nat)
    requires k < PIPELINE_SIZE && |begun| == |born| && Slot(d, k, begun, born, base, now) && Awaited(base, done)
    ensures d.stage == Finished && d.id == done % IDS <==> base == done && Due(k, begun, born, done, now)
  {
    var i := Owner(k, base);
    hide Owner, StageAt;
    if base == done {
      IdsTellApart(i, base);
      FinishedAt(begun, born, i, now);
    } else {
      IdsDiffer(i, done);
    }
  }

  lemma FinishedAt(begun: seq<Instr>, born: seq<nat>, i: nat, now: nat)
    requires |begun| == |born|
    ensures i < |begun| && born[i] <= now ==>
              (StageAt(begun[i].ticks, now - born[i]) == Finished <==> now - born[i] + 1 >= begun[i].ticks)
  {
  }

  /** The oldest instruction left after slot k has had its tick. */
  ghost function Past(k: nat, begun: seq<Instr>, born: seq<nat>, done: nat, now: nat): (r: nat)
    requires k < PIPELINE_SIZE && |begun| == |born| && done <= |begun|
    ensures r <= |begun|
  {
    if Due(k, begun, born, done, now) then done + 1 else done
  }

  /** How far the slots from k on take the execution in one tick, slot after slot. */
  ghost function Finalized(k: nat, begun: seq<Instr>, born: seq<nat>, done: nat, now: nat): (r: nat)
    requires k <= PIPELINE_SIZE && |begun| == |born| && done <= |begun|
    ensures done <= r <= |begun| && r <= done + (PIPELINE_SIZE - k)
    decreases PIPELINE_SIZE - k
  {
    if k == PIPELINE_SIZE then done
    else Finalized(k + 1, begun, born, Past(k, begun, born, done, now), now)
  }

  lemma FinalizedStep(k: nat, begun: seq<Instr>, born: seq<nat>, done: nat, now: nat)
    requires k < PIPELINE_SIZE && |begun| == |born| && done <= |begun|
    ensures Finalized(PIPELINE_SIZE, begun, born, done, now) == done
    ensures Finalized(k, begun, born, done, now) == Finalized(k + 1, begun, born, Past(k, begun, born, done, now), now)
  {
  }

  /** The slots below k have taken the window and the execution from `start` and `first` to `base` and `done`. */
  ghost predicate Reached(k: nat, begun: seq<Instr>, born: seq<nat>, now: nat, start: nat, first: nat, base: nat, done: nat)
    requires k <= PIPELINE_SIZE && |begun| == |born| && first <= |begun| && done <= |begun|
  {
    if start == first then
      base == done && Finalized(0, begun, born, first, now) == Finalized(k, begun, born, done, now)
    else
      base == start && done == first
  }

  lemma ReachedAll(begun: seq<Instr>, born: seq<nat>, now: nat, start: nat, first: nat, base: nat, done: nat)
    requires |begun| == |born| && first <= |begun| && done <= |begun|
    ensures Reached(0, begun, born, now, start, first, start, first)
    ensures Reached(PIPELINE_SIZE, begun, born, now, start, first, base, done) <==>
              if start == first then base == done == Finalized(0, begun, born, first, now) else base == start && done == first
  {
    FinalizedStep(0, begun, born, done, now);
  }

  lemma ReachedNext(k: nat, begun: seq<Instr>, born: seq<nat>, now: nat, start: nat, first: nat,
                    base: nat, done: nat, nextBase: nat, nextDone: nat)
    requires k < PIPELINE_SIZE && |begun| == |born| && first <= |begun| && done <= |begun|
    requires Reached(k, begun, born, now, start, first, base, done)
    requires if base == done then nextBase == nextDone == Past(k, begun, born, done, now)
             else nextBase == base && nextDone == done
    ensures nextDone <= |begun| && Reached(k + 1, begun, born, now, start, first, nextBase, nextDone)
  {
    FinalizedStep(k, begun, born, done, now);
  }

  /** A due instruction leaves in the tick in which its slot is still to come. */
  lemma {:induction false} DueLeaves(k: nat, begun: seq<Instr>, born: seq<nat>, done: nat, now: nat)
    requires k <= done % PIPELINE_SIZE && |begun| == |born| && done < |begun|
    requires born[done] <= now && now - born[done] + 1 >= begun[done].ticks
    ensures Finalized(k, begun, born, done, now) > done
    decreases PIPELINE_SIZE - k
  {
    OwnerUnique(k, done, done);
    if k < done % PIPELINE_SIZE {
      DueLeaves(k + 1, begun, born, done, now);
    }
  }

  /** No instruction grows as old as the latency while execution waits for the oldest. */
  lemma AgesBounded(begun: seq<Instr>, born: seq<nat>, done: nat, now: nat, maxTicks: nat)
    requires |begun| == |born| && done <= |begun| && Recorded(born, now) && Young(born, done, now, Latency(maxTicks))
    requires forall i :: 0 <= i < |begun| ==> begun[i].ticks <= maxTicks
    ensures Young(born, Finalized(0, begun, born, done, now + 1), now + 1, Latency(maxTicks))
  {
    var left := Finalized(0, begun, born, done, now + 1);
    forall i | left <= i < |born| ensures now + 1 < born[i] + Latency(maxTicks) {
      if i == done {
        if now + 1 == born[i] + Latency(maxTicks) {
          DueLeaves(0, begun, born, done, now + 1);
        }
      } else {
        assert born[done] < born[i];
      }
    }
  }

  /** The instructions before number `done` have had all their ticks, the one they began in included. */
  ghost predicate Ripe(begun: seq<Instr>, born: seq<nat>, done: nat, now: nat)
    requires |begun| == |born|
  {
    forall i :: 0 <= i < done && i < |begun| ==> born[i] + begun[i].ticks <= now + 1
  }

  /** Nothing leaves before it is decoded. */
  lemma {:induction false} RipeNext(k: nat, begun: seq<Instr>, born: seq<nat>, done: nat, now: nat)
    requires k <= PIPELINE_SIZE && |begun| == |born| && done <= |begun| && Ripe(begun, born, done, now)
    ensures Ripe(begun, born, Finalized(k, begun, born, done, now), now)
    decreases PIPELINE_SIZE - k
  {
    if k < PIPELINE_SIZE {
      RipeNext(k + 1, begun, born, Past(k, begun, born, done, now), now);
    }
  }

  lemma RipeLater(begun: seq<Instr>, born: seq<nat>, done: nat, now: nat, next: Instr)
    requires |begun| == |born| && done <= |begun| && Ripe(begun, born, done, now)
    ensures Ripe(begun, born, done, now + 1) && Ripe(begun + [next], born + [now], done, now)
  {
  }

  lemma AgesBegin(born: seq<nat>, done: nat, now: nat, maxTicks: nat)
    requires now > 0 && Recorded(born, now - 1)
    ensures Recorded(born, now) && Recorded(born + [now], now)
    ensures Young(born, done, now, Latency(maxTicks)) ==> Young(born + [now], done, now, Latency(maxTicks))
  {
  }

  lemma OldOnesDone(born: seq<nat>, done: nat, now: nat, latency: nat, n: nat, past: nat)
    requires Young(born, done, now, latency) && n <= |born|
    requires forall i :: 0 <= i < n ==> born[i] <= past
    ensures now >= past + latency ==> done >= n
  {
    if done < n {
      assert born[done] <= past;
    }
  }

  lemma FinalizeSlot(decoders: seq<PipeLineDecoder>, begun: seq<Instr>, born: seq<nat>, done: nat, now: nat, k: nat)
    requires |begun| == |born| && k < PIPELINE_SIZE && done < |begun| <= done + PIPELINE_SIZE
    requires Slots(decoders, begun, born, done, now, k + 1) && Owner(k, done) == done
    ensures Slots(decoders[k := decoders[k].Reset()], begun, born, done + 1, now, k + 1)
  {
    hide StageAt;
    var reset := decoders[k := decoders[k].Reset()];
    forall j | 0 <= j < PIPELINE_SIZE
      ensures Slot(reset[j], j, begun, born, done + 1, if j < k + 1 then now else now - 1)
    {
      OwnerNext(j, done);
      OwnerUnique(j, done, done);
      assert Slot(decoders[j], j, begun, born, done, if j < k + 1 then now else now - 1);
    }
  }

  lemma BeginSlot(decoders: seq<PipeLineDecoder>, begun: seq<Instr>, born: seq<nat>, done: nat, now: nat, next: Instr)
    requires |begun| == |born| && done <= |begun| < done + PIPELINE_SIZE && now > 0
    requires Slots(decoders, begun, born, done, now, PIPELINE_SIZE)
    ensures var k := |begun| % PIPELINE_SIZE;
            && decoders[k].stage == Idle
            && Slots(decoders[k := decoders[k].Start(|begun| % IDS, next)], begun + [next], born + [now], done, now, PIPELINE_SIZE)
  {
    var k := |begun| % PIPELINE_SIZE;
    OwnerUnique(k, done, |begun|);
    assert Slot(decoders[k], k, begun, born, done, now);
    var started := decoders[k := decoders[k].Start(|begun| % IDS, next)];
    forall j | 0 <= j < PIPELINE_SIZE
      ensures Slot(started[j], j, begun + [next], born + [now], done, now)
    {
      OwnerUnique(j, done, |begun|);
      assert Slot(decoders[j], j, begun, born, done, now);
    }
  }

  /** The ids in flight are those of the window, each in the slot that its number selects. */
  lemma LiveIds(decoders: seq<PipeLineDecoder>, begun: seq<Instr>, born: seq<nat>, done: nat, now: nat)
    requires |begun| == |born| && done <= |begun| <= done + PIPELINE_SIZE
    requires Slots(decoders, begun, born, done, now, PIPELINE_SIZE)
    ensures |decoders| == 4
    ensures forall i :: done <= i < |begun| ==>
              var d := decoders[i % 4]; d.stage != Idle && d.id == i % 16 && d.instr == begun[i]
    ensures forall k :: 0 <= k < 4 && decoders[k].stage != Idle ==>
              exists i :: done <= i < |begun| && i % 4 == k
  {
    hide Slot, Owner;
    forall i | done <= i < |begun|
      ensures var d := decoders[i % PIPELINE_SIZE]; d.stage != Idle && d.id == i % IDS && d.instr == begun[i]
    {
      OwnerUnique(i % PIPELINE_SIZE, done, i);
      InFlight(decoders[i % PIPELINE_SIZE], i % PIPELINE_SIZE, begun, born, done, now);
    }
    forall k | 0 <= k < PIPELINE_SIZE && decoders[k].stage != Idle ensures Owner(k, done) < |begun| {
      InFlight(decoders[k], k, begun, born, done, now);
    }
  }

  lemma InFlight(d: PipeLineDecoder, k: nat, begun: seq<Instr>, born: seq<nat>, done: nat, now: nat)
    requires k < PIPELINE_SIZE && |begun| == |born| && Slot(d, k, begun, born, done, now)
    ensures d.stage != Idle <==> Owner(k, done) < |begun|
    ensures Owner(k, done) < |begun| ==> d.id == Owner(k, done) % IDS && d.instr == begun[Owner(k, done)]
  {
    hide Owner;
  }

  /** A full window leaves no slot idle, and any other leaves the next slot idle. */
  lemma NextSlotIdle(decoders: seq<PipeLineDecoder>, begun: seq<Instr>, born: seq<nat>, done: nat, now: nat)
    requires |begun| == |born| && done <= |begun| <= done + PIPELINE_SIZE
    requires Slots(decoders, begun, born, done, now, PIPELINE_SIZE)
    ensures |decoders| == PIPELINE_SIZE
    ensures decoders[|begun| % PIPELINE_SIZE].stage == Idle <==> |begun| < done + PIPELINE_SIZE
  {
    var k := |begun| % PIPELINE_SIZE;
    if |begun| < done + PIPELINE_SIZE {
      OwnerUnique(k, done, |begun|);
    }
    assert Slot(decoders[k], k, begun, born, done, now);
  }

  lemma AllTicked(decoders: seq<PipeLineDecoder>, begun: seq<Instr>, born: seq<nat>, done: nat, now: nat)
    requires |begun| == |born| && Slots(decoders, begun, born, done, now, PIPELINE_SIZE)
    ensures Slots(decoders, begun, born, done, now + 1, 0)
  {
    hide Slot;
  }

  function Items(s: seq<Instr>): (t: seq<Item>)
    ensures |t| == |s| && forall i :: 0 <= i < |s| ==> t[i] == s[i].item
  {
    seq(|s|, i requires 0 <= i < |s| => s[i].item)
  }

  lemma NoItems(s: seq<Instr>, i: nat)
    requires i <= |s|
    ensures Items(s[i..i]) == []
  {
  }

  lemma ItemsJoin(s: seq<Instr>, i: nat, j: nat, k: nat)
    requires i <= j <= k <= |s|
    ensures Items(s[i..k]) == Items(s[i..j]) + Items(s[j..k])
  {
  }

  lemma ItemsNext(s: seq<Instr>, i: nat, j: nat)
    requires i <= j < |s|
    ensures Items(s[i..j + 1]) == Items(s[i..j]) + [s[j].item]
  {
  }

  /** The ticks by which an instruction of at most maxTicks ticks is always executed. */
  function Latency(maxTicks: nat): nat
  {
    if maxTicks >= 2 then maxTicks - 1 else 1
  }

  /** Instructions begin one to a tick at most. */
  ghost predicate Recorded(born: seq<nat>, now: nat)
  {
    && (forall i :: 0 <= i < |born| ==> born[i] <= now)
    && (forall i, j :: 0 <= i < j < |born| ==> born[i] < born[j])
  }

  /** The instructions from number `done` on are younger than the latency. */
  ghost predicate Young(born: seq<nat>, done: nat, now: nat, latency: nat)
  {
    forall i :: done <= i < |born| ==> now < born[i] + latency
  }

  /** With every slot reset, the window is empty and starts at the next instruction. */
  lemma FlushedSlots(decoders: seq<PipeLineDecoder>, begun: seq<Instr>, born: seq<nat>, now: nat)
    requires |begun| == |born| && |decoders| == PIPELINE_SIZE && now > 0
    requires forall k :: 0 <= k < PIPELINE_SIZE ==> decoders[k].stage == Idle
    ensures Slots(decoders, begun, born, |begun|, now, 0)
  {
  }
}

/** The CPU front end: four decoders in a round, and the dispatch queue they feed. */
module PipelineModel {
  import opened Basics
  import opened RingbufferModel
  import opened DispatchModel
  import opened WindowModel

  datatype ProcessDispatchResult = ExecOk | Empty | PeekErr | NoInstrSet | ExecFailed

  /** An instruction of a known set whose decoder output is small enough that four fit the queue. */
  predicate Decodable(extensions: map<Byte, nat>, szRam: nat, maxTicks: nat, instr: Instr)
  {
    Executable(extensions, szRam, instr.item) && 1 <= instr.ticks <= maxTicks
  }

  ghost predicate AllDecodable(extensions: map<Byte, nat>, szRam: nat, maxTicks: nat, s: seq<Instr>)
  {
    forall i :: 0 <= i < |s| ==> Decodable(extensions, szRam, maxTicks, s[i])
  }

  lemma DecodableNext(extensions: map<Byte, nat>, szRam: nat, maxTicks: nat, s: seq<Instr>, next: Instr)
    requires AllDecodable(extensions, szRam, maxTicks, s)
    ensures forall i :: 0 <= i < |s| ==> s[i].ticks <= maxTicks
    ensures Decodable(extensions, szRam, maxTicks, next) ==> AllDecodable(extensions, szRam, maxTicks, s + [next])
  {
  }

  predicate Executable(extensions: map<Byte, nat>, szRam: nat, item: Item)
  {
    && item.instrTypeId in extensions && |item.data| == extensions[item.instrTypeId]
    && 0 < |item.data| <= MAX_ITEM && PIPELINE_SIZE * (|item.data| + HEADER_SIZE) < szRam
  }

  /** Fewer than four items leave room for one more. */
  lemma {:induction false} QueueRoom(extensions: map<Byte, nat>, szRam: nat, items: seq<Item>, quarter: nat)
    requires PIPELINE_SIZE * quarter < szRam <= PIPELINE_SIZE * quarter + PIPELINE_SIZE
    requires forall i :: 0 <= i < |items| ==> Executable(extensions, szRam, items[i])
    requires |items| <= PIPELINE_SIZE
    ensures |Frame(items)| <= (if |items| == 0 then 0 else if |items| == 1 then quarter else if |items| == 2 then 2 * quarter
                               else if |items| == 3 then 3 * quarter else 4 * quarter)
  {
    if |items| > 0 {
      QueueRoom(extensions, szRam, items[1..], quarter);
      assert Executable(extensions, szRam, items[0]);
    }
  }

  class CPUBase {
    const dispatcher: Dispatch
    const extensions: map<Byte, nat>
    ghost var executed: seq<Item>

    ghost function Footprint(): set<object>
    {
      {this, dispatcher, dispatcher.ringbuffer, dispatcher.ringbuffer.data}
    }

    ghost function SizeOfRam(): nat
    {
      dispatcher.ringbuffer.szBuffer
    }

    ghost predicate Valid()
      reads Footprint()
    {
      && dispatcher.Valid()
      && forall i :: 0 <= i < |dispatcher.items| ==> Executable(extensions, SizeOfRam(), dispatcher.items[i])
    }

    constructor (szRam: nat, sets: map<Byte, nat>)
      requires szRam > 0
      ensures Valid() && fresh(Footprint()) && SizeOfRam() == szRam && extensions == sets
      ensures dispatcher.items == [] && executed == []
    {
      dispatcher := new Dispatch(szRam);
      extensions := sets;
      executed := [];
    }

    /** What a decoder does with its output: the room is asked for, then the item is pushed. */
    method PushToDispatch(item: Item) returns (ok: bool)
      requires Valid() && Executable(extensions, SizeOfRam(), item) && |dispatcher.items| < PIPELINE_SIZE
      modifies dispatcher, dispatcher.ringbuffer, dispatcher.ringbuffer.data
      ensures Valid() && ok && dispatcher.items == old(dispatcher.items) + [item]
    {
      var size := SizeOfRam();
      QueueRoom(extensions, size, dispatcher.items, (size - 1) / PIPELINE_SIZE);
      dispatcher.ringbuffer.CountsBytes();
      if !dispatcher.CanInsert(|item.data|) { return false; }
      ok := dispatcher.Push(item.instrTypeId, item.data);
    }

    /** One item of the queue is looked at, taken and executed. */
    method ProcessDispatch() returns (res: ProcessDispatchResult)
      requires Valid() && |dispatcher.items| <= PIPELINE_SIZE
      modifies this, dispatcher, dispatcher.ringbuffer
      ensures Valid()
      ensures old(dispatcher.items) == [] ==> res == Empty && dispatcher.items == [] && executed == old(executed)
      ensures old(dispatcher.items) != [] ==> res == ExecOk && dispatcher.items == old(dispatcher.items)[1..]
                                              && executed == old(executed) + [old(dispatcher.items)[0]]
    {
      var size := SizeOfRam();
      QueueRoom(extensions, size, dispatcher.items, (size - 1) / PIPELINE_SIZE);
      dispatcher.ringbuffer.CountsBytes();
      ghost var items := dispatcher.items;
      var peekResult, header := dispatcher.Peek();
      if peekResult < 0 { return PeekErr; }
      if peekResult == 0 { return Empty; }
      if header.instrTypeId !in extensions { return NoInstrSet; }
      var ok, output := dispatcher.Pop(extensions[header.instrTypeId]);
      if !ok { return ExecFailed; }
      executed := executed + [Item(header.instrTypeId, output)];
      assert items[0] == Item(header.instrTypeId, output);
      return ExecOk;
    }
  }

  class InstructionPipeline {
    const maxTicks: nat
    var idxNextAvail: nat
    var idExec: nat
    var idNextExec: nat
    var tickCount: nat
    var pipelineDecoders: seq<PipeLineDecoder>

    // The run so far: all instructions begun, the tick each began at, how many were finalized,
    // and the first one that a decoder may still hold.
    ghost var begun: seq<Instr>
    ghost var born: seq<nat>
    ghost var done: nat
    ghost var base: nat

    ghost predicate InOrder()
      reads this
    {
      && |born| == |begun| && base <= |begun| <= base + PIPELINE_SIZE && Awaited(base, done)
      && idNextExec == done % IDS && idExec == |begun| % IDS && idxNextAvail == |begun| % PIPELINE_SIZE
    }

    /** What holds between two ticks. */
    ghost predicate Valid(cpu: CPUBase)
      reads this, cpu.Footprint()
    {
      && InOrder() && cpu.Valid() && AllDecodable(cpu.extensions, cpu.SizeOfRam(), maxTicks, begun)
      && Slots(pipelineDecoders, begun, born, base, tickCount + 1, 0) && Recorded(born, tickCount)
      && (base == done ==> Young(born, done, tickCount, Latency(maxTicks))) && Ripe(begun, born, done, tickCount)
      && cpu.dispatcher.items == [] && cpu.executed == Items(begun[..done])
    }

    constructor (cpu: CPUBase, maxTicks: nat)
      requires cpu.Valid() && cpu.dispatcher.items == [] && cpu.executed == []
      ensures Valid(cpu) && begun == [] && base == done && this.maxTicks == maxTicks
    {
      this.maxTicks := maxTicks;
      idxNextAvail, idExec, idNextExec, tickCount := 0, 0, 0, 0;
      pipelineDecoders := seq(PIPELINE_SIZE, _ => PipeLineDecoder(0, 0, Idle, Instr(Item(0, []), 0)));
      begun, born, done, base := [], [], 0, 0;
    }

    predicate CanExecute(d: PipeLineDecoder)
      reads this
    {
      d.stage == Finished && d.id == idNextExec
    }

    /** The oldest instruction leaves slot k for the queue, and the slot is free again. */
    method Finalize(cpu: CPUBase, k: nat, ghost first: nat)
      requires k < PIPELINE_SIZE && |begun| == |born| && first <= done <= first + k && Owner(k, done) == done
      requires base == done < |begun| <= done + PIPELINE_SIZE && idNextExec == done % IDS
      requires Slots(pipelineDecoders, begun, born, done, tickCount, k + 1) && pipelineDecoders[k].instr == begun[done]
      requires cpu.Valid() && cpu.dispatcher.items == Items(begun[first..done])
      requires Executable(cpu.extensions, cpu.SizeOfRam(), begun[done].item)
      modifies this`pipelineDecoders, this`idNextExec, this`done, this`base
      modifies cpu.dispatcher, cpu.dispatcher.ringbuffer, cpu.dispatcher.ringbuffer.data
      ensures base == done == old(done) + 1 && idNextExec == done % IDS && cpu.Valid()
      ensures Slots(pipelineDecoders, begun, born, done, tickCount, k + 1)
      ensures cpu.dispatcher.items == Items(begun[first..done])
    {
      hide Slot, Items, Owner, Executable;
      ItemsNext(begun, first, done);
      FinalizeSlot(pipelineDecoders, begun, born, done, tickCount, k);
      NextId(done);
      var ok := cpu.PushToDispatch(pipelineDecoders[k].instr.item);
      idNextExec := NextExecID(idNextExec);
      pipelineDecoders := pipelineDecoders[k := pipelineDecoders[k].Reset()];
      done, base := done + 1, done + 1;
    }

    /** One tick of slot k, and its instruction's way into the queue when it may execute. */
    method UpdateSlot(cpu: CPUBase, k: nat, ghost first: nat)
      requires k < PIPELINE_SIZE && InOrder() && cpu.Valid()
      requires AllDecodable(cpu.extensions, cpu.SizeOfRam(), maxTicks, begun)
      requires Slots(pipelineDecoders, begun, born, base, tickCount, k)
      requires first <= done <= first + k && cpu.dispatcher.items == Items(begun[first..done])
      modifies this`pipelineDecoders, this`idNextExec, this`done, this`base
      modifies cpu.dispatcher, cpu.dispatcher.ringbuffer, cpu.dispatcher.ringbuffer.data
      ensures InOrder() && cpu.Valid() && first <= done <= first + k + 1 && done <= |begun|
      ensures Slots(pipelineDecoders, begun, born, base, tickCount, k + 1)
      ensures old(base) == old(done) ==> base == done == Past(k, begun, born, old(done), tickCount)
      ensures old(base) != old(done) ==> base == old(base) && done == old(done)
      ensures cpu.dispatcher.items == Items(begun[first..done])
    {
      TickSlot(pipelineDecoders, begun, born, base, tickCount, k, done);
      hide Slots, Due, Owner, Items, CPUBase.Valid;
      var d := pipelineDecoders[k];
      if d.stage.Idle? { return; }
      d := d.Tick();
      pipelineDecoders := pipelineDecoders[k := d];
      if CanExecute(d) {
        assert Decodable(cpu.extensions, cpu.SizeOfRam(), maxTicks, begun[done]);
        Finalize(cpu, k, first);
      }
    }

    /** Every slot is ticked once, in order. */
    method UpdatePipeline(cpu: CPUBase)
      requires |begun| == |born| && InOrder() && cpu.Valid() && AllDecodable(cpu.extensions, cpu.SizeOfRam(), maxTicks, begun)
      requires done <= |begun| && Slots(pipelineDecoders, begun, born, base, tickCount, 0) && cpu.dispatcher.items == []
      modifies this`pipelineDecoders, this`idNextExec, this`done, this`base
      modifies cpu.dispatcher, cpu.dispatcher.ringbuffer, cpu.dispatcher.ringbuffer.data
      ensures InOrder() && cpu.Valid() && old(done) <= done
      ensures Slots(pipelineDecoders, begun, born, base, tickCount, PIPELINE_SIZE)
      ensures old(base) == old(done) ==> base == done == Finalized(0, begun, born, old(done), tickCount)
      ensures old(base) != old(done) ==> base == old(base) && done == old(done)
      ensures cpu.dispatcher.items == Items(begun[old(done)..done])
    {
      hide Slots, Past, Items, Owner, InOrder, CPUBase.Valid, AllDecodable, Finalized, Reached, Awaited, Due;
      ghost var start, first := base, done;
      NoItems(begun, first);
      ReachedAll(begun, born, tickCount, start, first, base, done);
      for k := 0 to PIPELINE_SIZE
        invariant InOrder() && cpu.Valid() && first <= done <= first + k && done <= |begun| == |born|
        invariant Slots(pipelineDecoders, begun, born, base, tickCount, k)
        invariant Reached(k, begun, born, tickCount, start, first, base, done)
        invariant cpu.dispatcher.items == Items(begun[first..done])
      {
        ghost var b, d := base, done;
        UpdateSlot(cpu, k, first);
        ReachedNext(k, begun, born, tickCount, start, first, b, d, base, done);
      }
      ReachedAll(begun, born, tickCount, start, first, base, done);
    }

    /** The queue is drained: everything in it is executed, in order. */
    method ProcessDispatcher(cpu: CPUBase) returns (ok: bool)
      requires cpu.Valid() && |cpu.dispatcher.items| <= PIPELINE_SIZE
      modifies cpu, cpu.dispatcher, cpu.dispatcher.ringbuffer
      ensures cpu.Valid() && ok && cpu.dispatcher.items == []
      ensures cpu.executed == old(cpu.executed) + old(cpu.dispatcher.items)
    {
      hide CPUBase.Valid;
      var processResult := cpu.ProcessDispatch();
      while processResult == ExecOk
        invariant cpu.Valid() && |cpu.dispatcher.items| <= PIPELINE_SIZE
        invariant processResult == ExecOk || (processResult == Empty && cpu.dispatcher.items == [])
        invariant cpu.executed + cpu.dispatcher.items == old(cpu.executed) + old(cpu.dispatcher.items)
        decreases |cpu.dispatcher.items|, processResult == ExecOk
      {
        processResult := cpu.ProcessDispatch();
      }
      if processResult == NoInstrSet { return false; }
      if processResult == ExecFailed { return false; }
      return true;
    }

    /** The instruction at the instruction pointer starts in the next slot. */
    method BeginNext(next: Instr)
      requires InOrder() && |begun| < base + PIPELINE_SIZE && tickCount > 0
      requires Slots(pipelineDecoders, begun, born, base, tickCount, PIPELINE_SIZE)
      modifies this`pipelineDecoders, this`idxNextAvail, this`idExec, this`begun, this`born
      ensures InOrder() && begun == old(begun) + [next] && born == old(born) + [tickCount]
      ensures Slots(pipelineDecoders, begun, born, base, tickCount, PIPELINE_SIZE)
    {
      BeginSlot(pipelineDecoders, begun, born, base, tickCount, next);
      NextId(|begun|);
      var slot := idxNextAvail;
      idxNextAvail := (idxNextAvail + 1) % PIPELINE_SIZE;
      pipelineDecoders := pipelineDecoders[slot := pipelineDecoders[slot].Start(idExec, next)];
      idExec := NextExecID(idExec);
      begun, born := begun + [next], born + [tickCount];
    }

    /**
     One tick, with the instruction that the instruction pointer would give. The decoded part
     of the window is executed in the order in which it began; a new instruction begins
     exactly when fewer than four are still in flight.
     */
    method Tick(cpu: CPUBase, next: Instr) returns (ok: bool)
      requires Valid(cpu) && Decodable(cpu.extensions, cpu.SizeOfRam(), maxTicks, next)
      modifies this, cpu.Footprint()
      ensures Valid(cpu) && ok && tickCount == old(tickCount) + 1
      ensures old(base) == old(done) ==> base == done == Finalized(0, old(begun), old(born), old(done), tickCount)
      ensures old(base) != old(done) ==> base == old(base) && done == old(done) && cpu.executed == old(cpu.executed)
      ensures old(|begun|) < base + 4 ==> begun == old(begun) + [next] && born == old(born) + [tickCount]
      ensures old(|begun|) == base + 4 ==> begun == old(begun) && born == old(born)
    {
      hide Slots, Due, Items, Owner, Finalized, Recorded, Young, Ripe, Latency, CPUBase.Valid, AllDecodable, Decodable, Frame, Executable;
      DecodableNext(cpu.extensions, cpu.SizeOfRam(), maxTicks, begun, next);
      tickCount := tickCount + 1;
      RipeLater(begun, born, done, tickCount - 1, next);
      if base == done {
        AgesBounded(begun, born, done, tickCount - 1, maxTicks);
        RipeNext(0, begun, born, done, tickCount);
      }
      UpdatePipeline(cpu);
      ok := ProcessDispatcher(cpu);
      ItemsJoin(begun, 0, old(done), done);
      if !ok { return false; }
      NextSlotIdle(pipelineDecoders, begun, born, base, tickCount);
      AgesBegin(born, done, tickCount, maxTicks);
      if pipelineDecoders[idxNextAvail].stage.Idle? {
        RipeLater(begun, born, done, tickCount, next);
        BeginNext(next);
        assert begun[..done] == old(begun)[..done];
      }
      AllTicked(pipelineDecoders, begun, born, base, tickCount);
      return true;
    }

    /**
     A run of any number of ticks. What was executed is always a prefix of what began, nothing
     of it is lost or executed twice, and at most four instructions are in flight. Once the
     latency has passed, everything that had begun is executed and something new has begun.
     After a flush that dropped instructions the opposite holds: nothing is executed any more,
     and beginning stops for good after four instructions.
     */
    method Run(cpu: CPUBase, offered: seq<Instr>)
      requires Valid(cpu)
      requires forall i :: 0 <= i < |offered| ==> Decodable(cpu.extensions, cpu.SizeOfRam(), maxTicks, offered[i])
      modifies this, cpu.Footprint()
      ensures Valid(cpu) && tickCount == old(tickCount) + |offered|
      ensures old(begun) <= begun && old(born) <= born && old(done) <= done && base <= |begun| <= base + 4
      ensures cpu.executed == Items(begun)[..done]
      ensures forall i :: old(|begun|) <= i < |begun| ==> old(tickCount) < born[i] <= tickCount
      ensures forall i :: old(|begun|) <= i < |begun| ==> begun[i] == offered[born[i] - old(tickCount) - 1]
      ensures old(base) == old(done) ==> base == done
      ensures forall i :: 0 <= i < done ==> born[i] + begun[i].ticks <= tickCount + 1
      ensures var latency := if maxTicks >= 2 then maxTicks - 1 else 1;
              old(base) == old(done) ==>
                && (forall i :: 0 <= i < |begun| && born[i] + latency <= tickCount ==> i < done)
                && (|offered| >= latency ==> done >= old(|begun|) && |begun| > old(|begun|))
      ensures old(base) != old(done) ==> done == old(done) && base == old(base) && cpu.executed == old(cpu.executed)
      ensures old(base) != old(done) && |offered| >= 4 ==> |begun| == base + 4
    {
      hide Slots, Due, Owner, Finalized, CPUBase.Valid;
      for t := 0 to |offered|
        invariant Valid(cpu) && tickCount == old(tickCount) + t
        invariant old(begun) <= begun && old(born) <= born && old(done) <= done
        invariant if old(base) == old(done) then base == done
                  else base == old(base) && done == old(done) && cpu.executed == old(cpu.executed)
                       && |begun| >= if t < PIPELINE_SIZE then base + t else base + PIPELINE_SIZE
        invariant forall i :: old(|begun|) <= i < |begun| ==>
                    old(tickCount) < born[i] <= tickCount && begun[i] == offered[born[i] - old(tickCount) - 1]
        invariant forall i :: 0 <= i < old(|begun|) ==> born[i] <= old(tickCount)
        invariant t > 0 && |begun| == old(|begun|) ==> |begun| == base + PIPELINE_SIZE
      {
        var ok := Tick(cpu, offered[t]);
      }
      assert Items(begun[..done]) == Items(begun)[..done];
      if base == done { OldOnesDone(born, done, tickCount, Latency(maxTicks), old(|begun|), old(tickCount)); }
    }

    /**
     Every decoder is reset, but the two ids stay: when something was in flight, execution goes
     on waiting for an instruction that no decoder holds.
     */
    method Flush(ghost cpu: CPUBase)
      requires Valid(cpu) && |begun| <= done + 12
      modifies this`pipelineDecoders, this`base
      ensures Valid(cpu) && base == |begun|
      ensures base == done <==> old(|begun|) == old(done)
    {
      hide Slot, Owner, Items, Recorded, Latency, AllDecodable;
      for k := 0 to PIPELINE_SIZE
        invariant |pipelineDecoders| == PIPELINE_SIZE && cpu.Valid()
        invariant forall j :: 0 <= j < k ==> pipelineDecoders[j].stage == Idle
      {
        pipelineDecoders := pipelineDecoders[k := pipelineDecoders[k].Reset()];
      }
      base := |begun|;
      FlushedSlots(pipelineDecoders, begun, born, tickCount + 1);
    }
  }
}
