/** Links in which a label is used from a chunk that is merged later: when they end the program, and what else they do. */
module Unsettled {
  import opened Basics
  import opened Layout
  import opened Numbers
  import opened Merging
  import opened Units
  import opened Planning
  import opened LocalPoints

  /** One chunk to be merged, with the labels of its unit. */
  datatype Step = Step(identifiers: seq<LocalIdentifier>, chunk: UnitChunk, kind: SegmentType)

  function StepsOf(identifiers: seq<LocalIdentifier>, chunks: seq<UnitChunk>, kind: SegmentType): (s: seq<Step>)
    ensures |s| == |chunks| && forall i :: 0 <= i < |s| ==> s[i] == Step(identifiers, chunks[i], kind)
  {
    seq(|chunks|, i requires 0 <= i < |chunks| => Step(identifiers, chunks[i], kind))
  }

  function UnitSteps(unit: CompileUnit): seq<Step>
  {
    StepsOf(unit.identifiers, unit.code, Code) + StepsOf(unit.identifiers, unit.data, Data)
  }

  /** All chunks in the order in which they are merged. */
  function AllSteps(units: seq<CompileUnit>): seq<Step>
  {
    if |units| == 0 then [] else AllSteps(units[..|units| - 1]) + UnitSteps(units[|units| - 1])
  }

  /** Merging chunk after chunk, until a local point ends the program. */
  function PlanSteps(p: Plan, steps: seq<Step>): Plan
    decreases |steps|
  {
    if |steps| == 0 || p.exited then p
    else PlanSteps(PlanChunk(p, steps[0].identifiers, steps[0].chunk, steps[0].kind), steps[1..])
  }

  /** No chunk on the way is refused. */
  predicate Accepted(p: Plan, steps: seq<Step>)
    decreases |steps|
  {
    |steps| == 0 || p.exited ||
    (!Refuses(p, steps[0].chunk) && Accepted(PlanChunk(p, steps[0].identifiers, steps[0].chunk, steps[0].kind), steps[1..]))
  }

  lemma {:induction false} StepsJoin(p: Plan, a: seq<Step>, b: seq<Step>)
    ensures PlanSteps(p, a + b) == PlanSteps(PlanSteps(p, a), b)
    ensures Accepted(p, a + b) <==> Accepted(p, a) && Accepted(PlanSteps(p, a), b)
    decreases |a|
  {
    hide PlanChunk, Refuses;
    if |a| == 0 {
      assert a + b == b;
    } else if !p.exited {
      assert (a + b)[0] == a[0] && (a + b)[1..] == a[1..] + b;
      StepsJoin(PlanChunk(p, a[0].identifiers, a[0].chunk, a[0].kind), a[1..], b);
    }
  }

  lemma {:induction false} SegmentIsSteps(p: Plan, identifiers: seq<LocalIdentifier>, chunks: seq<UnitChunk>, kind: SegmentType)
    requires !p.refused && !PlanSegment(p, identifiers, chunks, kind).refused
    ensures PlanSegment(p, identifiers, chunks, kind) == PlanSteps(p, StepsOf(identifiers, chunks, kind))
    ensures Accepted(p, StepsOf(identifiers, chunks, kind))
    decreases |chunks|
  {
    hide RunOf, Refuses, StepsOf;
    var steps := StepsOf(identifiers, chunks, kind);
    if |chunks| > 0 && !p.exited {
      assert steps[1..] == StepsOf(identifiers, chunks[1..], kind);
      SegmentIsSteps(PlanChunk(p, identifiers, chunks[0], kind), identifiers, chunks[1..], kind);
    }
  }

  lemma UnitIsSteps(p: Plan, unit: CompileUnit)
    requires !p.refused && !PlanUnit(p, unit).refused
    ensures PlanUnit(p, unit) == PlanSteps(p, UnitSteps(unit)) && Accepted(p, UnitSteps(unit))
  {
    hide PlanSegment, PlanSteps, Accepted;
    var mid := PlanSegment(p, unit.identifiers, unit.code, Code);
    SegmentFails(mid, unit.identifiers, unit.data, Data);
    SegmentIsSteps(p, unit.identifiers, unit.code, Code);
    SegmentIsSteps(mid, unit.identifiers, unit.data, Data);
    StepsJoin(p, StepsOf(unit.identifiers, unit.code, Code), StepsOf(unit.identifiers, unit.data, Data));
  }

  /** Without a refused chunk a link is the merge of all chunks in order. */
  lemma {:induction false} LinkIsSteps(p: Plan, units: seq<CompileUnit>, n: nat)
    requires n <= |units| && !p.refused && !PlanUnits(p, units[..n]).refused
    ensures PlanUnits(p, units[..n]) == PlanSteps(p, AllSteps(units[..n])) && Accepted(p, AllSteps(units[..n]))
    decreases n
  {
    hide PlanUnit, PlanUnits, PlanSteps, Accepted, UnitSteps;
    if n == 0 {
      UnitsEnd(p, units[..0]);
      NoSteps(p);
    } else {
      var before := PlanUnits(p, units[..n - 1]);
      UnitsNext(p, units, n - 1);
      if !before.exited { UnitFails(before, units[n - 1]); }
      LinkIsSteps(p, units, n - 1);
      assert units[..n][..n - 1] == units[..n - 1];
      StepsJoin(p, AllSteps(units[..n - 1]), UnitSteps(units[n - 1]));
      if before.exited {
        StepsEnd(before, UnitSteps(units[n - 1]));
      } else {
        UnitIsSteps(before, units[n - 1]);
      }
    }
  }

  lemma NoSteps(p: Plan)
    ensures PlanSteps(p, []) == p && Accepted(p, [])
  {
  }

  lemma StepsEnd(p: Plan, steps: seq<Step>)
    requires p.exited
    ensures PlanSteps(p, steps) == p && Accepted(p, steps)
  {
  }

  /** The plan before chunk k is merged, and with chunk k in place before its points are relocated. */
  function Before(p: Plan, steps: seq<Step>, k: nat): Plan
    requires k <= |steps|
  {
    PlanSteps(p, steps[..k])
  }

  function At(p: Plan, steps: seq<Step>, k: nat): (q: Plan)
    requires k < |steps|
    ensures |Pick(q.code, q.data, steps[k].kind)| == |Pick(Before(p, steps, k).code, Before(p, steps, k).data, steps[k].kind)| + 1
  {
    Loaded(Before(p, steps, k), steps[k].chunk, steps[k].kind)
  }

  lemma NextBefore(p: Plan, steps: seq<Step>, k: nat)
    requires k < |steps| && !Before(p, steps, k).exited
    ensures Before(p, steps, k + 1) == PlanChunk(Before(p, steps, k), steps[k].identifiers, steps[k].chunk, steps[k].kind)
  {
    hide PlanChunk;
    assert steps[..k + 1] == steps[..k] + [steps[k]];
    StepsJoin(p, steps[..k], [steps[k]]);
    assert [steps[k]][1..] == [];
  }

  /** How the relocation of one point ends when its label's chunk, number k, is merged. */
  function OutcomeAt(p: Plan, steps: seq<Step>, k: nat, point: ResolvePoint): Relocation
    requires k < |steps|
  {
    var q := At(p, steps, k);
    PointOutcome(q.code, q.data, q.loads, point, steps[k].kind, |Pick(q.code, q.data, steps[k].kind)| - 1)
  }

  /** The chunk of an absolute point is looked up where no merged chunk of that segment lies. */
  predicate NothingThere(q: Plan, point: ResolvePoint)
  {
    !point.isRelative &&
    forall i :: 0 <= i < |Pick(q.code, q.data, point.segment)| ==>
      var chunk := Pick(q.code, q.data, point.segment)[i];
      !(chunk.load <= LocalAddress(q.loads, point) < chunk.EndAddress())
  }

  lemma PointExits(q: Plan, point: ResolvePoint, kind: SegmentType, k: nat)
    requires k < |Pick(q.code, q.data, kind)|
    ensures PointOutcome(q.code, q.data, q.loads, point, kind, k) == Exited <==> NothingThere(q, point)
  {
    hide FindFrom;
    FindExact(Pick(q.code, q.data, point.segment), LocalAddress(q.loads, point), 0);
  }

  /** The relocation of these points comes to one that ends like this, and to none before it that fails. */
  predicate Meets(code: seq<Chunk>, data: seq<Chunk>, loads: map<nat, nat>, points: seq<ResolvePoint>, kind: SegmentType, k: nat,
                  res: Relocation)
    requires k < |Pick(code, data, kind)|
  {
    exists j :: 0 <= j < |points| && PointOutcome(code, data, loads, points[j], kind, k) == res
                && AllLinked(code, data, loads, points[..j], kind, k)
  }

  predicate AllLinked(code: seq<Chunk>, data: seq<Chunk>, loads: map<nat, nat>, points: seq<ResolvePoint>, kind: SegmentType, k: nat)
    requires k < |Pick(code, data, kind)|
  {
    forall i :: 0 <= i < |points| ==> PointOutcome(code, data, loads, points[i], kind, k) == Linked
  }

  lemma MeetsJoin(code: seq<Chunk>, data: seq<Chunk>, loads: map<nat, nat>, a: seq<ResolvePoint>, b: seq<ResolvePoint>,
                  kind: SegmentType, k: nat, res: Relocation)
    requires k < |Pick(code, data, kind)| && AllLinked(code, data, loads, a, kind, k) && res != Linked
    ensures Meets(code, data, loads, a + b, kind, k, res) <==> Meets(code, data, loads, b, kind, k, res)
    ensures AllLinked(code, data, loads, a + b, kind, k) <==> AllLinked(code, data, loads, b, kind, k)
  {
    hide PointOutcome, AllLinked;
    LinkedJoin(code, data, loads, a, b, kind, k);
    if Meets(code, data, loads, b, kind, k, res) {
      var j :| 0 <= j < |b| && PointOutcome(code, data, loads, b[j], kind, k) == res && AllLinked(code, data, loads, b[..j], kind, k);
      LinkedJoin(code, data, loads, a, b[..j], kind, k);
      Behind(a, b, j);
      MeetsIn(code, data, loads, a + b, kind, k, res, |a| + j);
    }
    if Meets(code, data, loads, a + b, kind, k, res) {
      var j :| 0 <= j < |a + b| && PointOutcome(code, data, loads, (a + b)[j], kind, k) == res
               && AllLinked(code, data, loads, (a + b)[..j], kind, k);
      if j < |a| { LinkedOne(code, data, loads, a, kind, k, j); }
      Behind(a, b, j - |a|);
      LinkedJoin(code, data, loads, a, b[..j - |a|], kind, k);
      MeetsIn(code, data, loads, b, kind, k, res, j - |a|);
    }
  }

  lemma LinkedOne(code: seq<Chunk>, data: seq<Chunk>, loads: map<nat, nat>, points: seq<ResolvePoint>, kind: SegmentType, k: nat, i: nat)
    requires k < |Pick(code, data, kind)| && i < |points| && AllLinked(code, data, loads, points, kind, k)
    ensures PointOutcome(code, data, loads, points[i], kind, k) == Linked
  {
  }

  lemma MeetsIn(code: seq<Chunk>, data: seq<Chunk>, loads: map<nat, nat>, points: seq<ResolvePoint>, kind: SegmentType, k: nat,
                res: Relocation, j: nat)
    requires k < |Pick(code, data, kind)| && j < |points|
    requires PointOutcome(code, data, loads, points[j], kind, k) == res && AllLinked(code, data, loads, points[..j], kind, k)
    ensures Meets(code, data, loads, points, kind, k, res)
  {
  }

  lemma Behind<T>(a: seq<T>, b: seq<T>, j: nat)
    requires j < |b|
    ensures (a + b)[|a| + j] == b[j] && (a + b)[..|a| + j] == a + b[..j]
  {
  }

  lemma LinkedJoin(code: seq<Chunk>, data: seq<Chunk>, loads: map<nat, nat>, a: seq<ResolvePoint>, b: seq<ResolvePoint>,
                   kind: SegmentType, k: nat)
    requires k < |Pick(code, data, kind)|
    ensures AllLinked(code, data, loads, a + b, kind, k) <==>
            AllLinked(code, data, loads, a, kind, k) && AllLinked(code, data, loads, b, kind, k)
  {
    hide PointOutcome;
    if AllLinked(code, data, loads, a + b, kind, k) {
      forall i | 0 <= i < |a| ensures PointOutcome(code, data, loads, a[i], kind, k) == Linked {
        assert a[i] == (a + b)[i];
      }
      forall i | 0 <= i < |b| ensures PointOutcome(code, data, loads, b[i], kind, k) == Linked {
        assert b[i] == (a + b)[|a| + i];
      }
    }
  }

  lemma MeetsFirst(code: seq<Chunk>, data: seq<Chunk>, loads: map<nat, nat>, a: seq<ResolvePoint>, b: seq<ResolvePoint>,
                   kind: SegmentType, k: nat, res: Relocation)
    requires k < |Pick(code, data, kind)| && !AllLinked(code, data, loads, a, kind, k)
    ensures Meets(code, data, loads, a + b, kind, k, res) <==> Meets(code, data, loads, a, kind, k, res)
    ensures !AllLinked(code, data, loads, a + b, kind, k)
  {
    hide PointOutcome, AllLinked;
    LinkedJoin(code, data, loads, a, b, kind, k);
    if Meets(code, data, loads, a, kind, k, res) {
      var j :| 0 <= j < |a| && PointOutcome(code, data, loads, a[j], kind, k) == res && AllLinked(code, data, loads, a[..j], kind, k);
      InFront(a, b, j);
      MeetsIn(code, data, loads, a + b, kind, k, res, j);
    }
    if Meets(code, data, loads, a + b, kind, k, res) {
      var j :| 0 <= j < |a + b| && PointOutcome(code, data, loads, (a + b)[j], kind, k) == res
               && AllLinked(code, data, loads, (a + b)[..j], kind, k);
      if j >= |a| {
        Behind(a, b, j - |a|);
        LinkedJoin(code, data, loads, a, b[..j - |a|], kind, k);
      }
      InFront(a, b, j);
      MeetsIn(code, data, loads, a, kind, k, res, j);
    }
  }

  lemma InFront<T>(a: seq<T>, b: seq<T>, j: nat)
    requires j < |a|
    ensures (a + b)[j] == a[j] && (a + b)[..j] == a[..j]
  {
  }

  lemma {:induction false} LabelEnds(code: seq<Chunk>, data: seq<Chunk>, loads: map<nat, nat>, identifier: LocalIdentifier,
                                     points: seq<ResolvePoint>, kind: SegmentType, k: nat, res: Relocation)
    requires k < |Pick(code, data, kind)| && res != Linked
    ensures LabelRun(code, data, loads, identifier, points, kind, k).res == res <==> Meets(code, data, loads, points, kind, k, res)
    ensures LabelRun(code, data, loads, identifier, points, kind, k).res == Linked <==> AllLinked(code, data, loads, points, kind, k)
  {
    hide PointOutcome, PointWrite, Meets, AllLinked;
    if |points| == 0 {
      NoneMet(code, data, loads, kind, k, res);
    } else {
      assert points == [points[0]] + points[1..];
      LabelEnds(code, data, loads, identifier, points[1..], kind, k, res);
      OneMet(code, data, loads, points[0], kind, k, res);
      if PointOutcome(code, data, loads, points[0], kind, k) == Linked {
        MeetsJoin(code, data, loads, [points[0]], points[1..], kind, k, res);
      } else {
        MeetsFirst(code, data, loads, [points[0]], points[1..], kind, k, res);
      }
    }
  }

  lemma NoneMet(code: seq<Chunk>, data: seq<Chunk>, loads: map<nat, nat>, kind: SegmentType, k: nat, res: Relocation)
    requires k < |Pick(code, data, kind)|
    ensures !Meets(code, data, loads, [], kind, k, res) && AllLinked(code, data, loads, [], kind, k)
  {
  }

  lemma OneMet(code: seq<Chunk>, data: seq<Chunk>, loads: map<nat, nat>, point: ResolvePoint, kind: SegmentType, k: nat, res: Relocation)
    requires k < |Pick(code, data, kind)|
    ensures Meets(code, data, loads, [point], kind, k, res) <==> PointOutcome(code, data, loads, point, kind, k) == res
    ensures AllLinked(code, data, loads, [point], kind, k) <==> PointOutcome(code, data, loads, point, kind, k) == Linked
  {
    hide PointOutcome;
    var one := [point];
    assert one[0] == point && AllLinked(code, data, loads, one[..0], kind, k);
  }

  /** The points of the labels of one chunk, in the order in which they are relocated. */
  function PointsIn(identifiers: seq<LocalIdentifier>, id: nat): seq<ResolvePoint>
  {
    if |identifiers| == 0 then []
    else (if identifiers[0].symbol.chunk == id then identifiers[0].points else []) + PointsIn(identifiers[1..], id)
  }

  /** The relocation of a chunk ends as its first point that fails does, and well if none fails. */
  lemma {:induction false} ChunkEnds(code: seq<Chunk>, data: seq<Chunk>, loads: map<nat, nat>, identifiers: seq<LocalIdentifier>, id: nat,
                                     kind: SegmentType, k: nat, res: Relocation)
    requires k < |Pick(code, data, kind)| && res != Linked
    ensures var run, points := ChunkRun(code, data, loads, identifiers, id, kind, k), PointsIn(identifiers, id);
            && (run.res == res <==> Meets(code, data, loads, points, kind, k, res))
            && (run.res == Linked <==> AllLinked(code, data, loads, points, kind, k))
  {
    hide PointOutcome, LabelRun, Meets, AllLinked;
    if |identifiers| == 0 {
      NoneMet(code, data, loads, kind, k, res);
    } else {
      var first, rest := identifiers[0], PointsIn(identifiers[1..], id);
      ChunkEnds(code, data, loads, identifiers[1..], id, kind, k, res);
      if first.symbol.chunk == id {
        LabelEnds(code, data, loads, first, first.points, kind, k, res);
        if AllLinked(code, data, loads, first.points, kind, k) {
          MeetsJoin(code, data, loads, first.points, rest, kind, k, res);
        } else {
          MeetsFirst(code, data, loads, first.points, rest, kind, k, res);
        }
      } else {
        assert [] + rest == rest;
      }
    }
  }

  function PointsAt(steps: seq<Step>, k: nat): seq<ResolvePoint>
    requires k < |steps|
  {
    PointsIn(steps[k].identifiers, steps[k].chunk.id)
  }

  /** The first n points of chunk k are relocated without a failure. */
  predicate LinkedTo(p: Plan, steps: seq<Step>, k: nat, n: nat)
    requires k < |steps| && n <= |PointsAt(steps, k)|
  {
    forall i :: 0 <= i < n ==> OutcomeAt(p, steps, k, PointsAt(steps, k)[i]) == Linked
  }

  /** A point of chunk k, with no failing one before it, is absolute and looked up where nothing lies. */
  predicate LooksInVain(p: Plan, steps: seq<Step>, k: nat)
    requires k < |steps|
  {
    exists j :: 0 <= j < |PointsAt(steps, k)| && NothingThere(At(p, steps, k), PointsAt(steps, k)[j]) && LinkedTo(p, steps, k, j)
  }

  lemma StepEnds(p: Plan, steps: seq<Step>, k: nat)
    requires k < |steps| && !Before(p, steps, k).exited
    ensures Before(p, steps, k + 1).exited <==> LooksInVain(p, steps, k)
    ensures Before(p, steps, k + 1).lost <==> Before(p, steps, k).lost || !LinkedTo(p, steps, k, |PointsAt(steps, k)|)
  {
    hide PlanSteps, PointOutcome, ChunkRun, PointsIn, Meets, NothingThere, Before;
    var before, q, points, kind := Before(p, steps, k), At(p, steps, k), PointsAt(steps, k), steps[k].kind;
    var at := |Pick(q.code, q.data, kind)| - 1;
    NextBefore(p, steps, k);
    ChunkEnds(q.code, q.data, q.loads, steps[k].identifiers, steps[k].chunk.id, kind, at, Exited);
    MetAt(p, steps, k);
  }

  lemma MetAt(p: Plan, steps: seq<Step>, k: nat)
    requires k < |steps|
    ensures var q, points, kind := At(p, steps, k), PointsAt(steps, k), steps[k].kind; var at := |Pick(q.code, q.data, kind)| - 1;
            && (LooksInVain(p, steps, k) <==> Meets(q.code, q.data, q.loads, points, kind, at, Exited))
            && (LinkedTo(p, steps, k, |points|) <==> AllLinked(q.code, q.data, q.loads, points, kind, at))
  {
    hide PointOutcome, PointsIn, NothingThere, At;
    var q, points, kind := At(p, steps, k), PointsAt(steps, k), steps[k].kind;
    var at := |Pick(q.code, q.data, kind)| - 1;
    forall j | 0 <= j < |points|
      ensures PointOutcome(q.code, q.data, q.loads, points[j], kind, at) == Exited <==> NothingThere(q, points[j])
      ensures AllLinked(q.code, q.data, q.loads, points[..j], kind, at) <==> LinkedTo(p, steps, k, j)
    {
      PointExits(q, points[j], kind, at);
      LinkedSame(p, steps, k, j);
    }
    LinkedSame(p, steps, k, |points|);
    assert points[..|points|] == points;
    if LooksInVain(p, steps, k) {
      var j :| 0 <= j < |points| && NothingThere(q, points[j]) && LinkedTo(p, steps, k, j);
      assert PointOutcome(q.code, q.data, q.loads, points[j], kind, at) == Exited;
    }
  }

  lemma LinkedSame(p: Plan, steps: seq<Step>, k: nat, n: nat)
    requires k < |steps| && n <= |PointsAt(steps, k)|
    ensures var q, points, kind := At(p, steps, k), PointsAt(steps, k), steps[k].kind;
            LinkedTo(p, steps, k, n) <==>
            AllLinked(q.code, q.data, q.loads, points[..n], kind, |Pick(q.code, q.data, kind)| - 1)
  {
    hide PointOutcome, PointsIn, At;
    var points := PointsAt(steps, k);
    forall i | 0 <= i < n ensures points[..n][i] == points[i] {
    }
  }

  /** The merge of the first n chunks ends the program, or loses something, at one of them. */
  lemma {:induction false} EndsBy(p: Plan, steps: seq<Step>, n: nat)
    requires n <= |steps| && !p.exited && !p.lost
    ensures Before(p, steps, n).exited <==> exists k :: 0 <= k < n && !Before(p, steps, k).exited && LooksInVain(p, steps, k)
    ensures Before(p, steps, n).lost <==>
            exists k :: 0 <= k < n && !Before(p, steps, k).exited && !LinkedTo(p, steps, k, |PointsAt(steps, k)|)
    decreases n
  {
    hide PlanSteps, LooksInVain, LinkedTo, PointsAt;
    if n == 0 {
      NoSteps(p);
      assert steps[..0] == [];
    } else {
      EndsBy(p, steps, n - 1);
      if Before(p, steps, n - 1).exited {
        NoneAfter(p, steps, n - 1, n);
      } else {
        StepEnds(p, steps, n - 1);
      }
    }
  }

  /** Nothing is merged once the program has ended. */
  lemma NoneAfter(p: Plan, steps: seq<Step>, k: nat, n: nat)
    requires k <= n <= |steps| && Before(p, steps, k).exited
    ensures Before(p, steps, n) == Before(p, steps, k)
  {
    hide PlanSteps;
    assert steps[..n] == steps[..k] + steps[k..n];
    StepsJoin(p, steps[..k], steps[k..n]);
    StepsEnd(Before(p, steps, k), steps[k..n]);
  }

  /**
   When no chunk is refused, a link ends the program if and only if a chunk is reached one of whose
   labels has an absolute point, with no failing one before it, that is looked up where no merged
   chunk lies; and it loses something if and only if some point of a chunk that is reached is not patched.
   */
  lemma ExitsExactly(given: map<nat, nat>, units: seq<CompileUnit>)
    requires !PlanUnits(Start(given), units).refused
    ensures var p, plan, steps := Start(given), PlanUnits(Start(given), units), AllSteps(units);
            && (plan.exited <==> exists k :: 0 <= k < |steps| && !Before(p, steps, k).exited && LooksInVain(p, steps, k))
            && (plan.lost <==> exists k :: 0 <= k < |steps| && !Before(p, steps, k).exited
                                            && !LinkedTo(p, steps, k, |PointsAt(steps, k)|))
  {
    hide PlanUnits, PlanSteps, LooksInVain, LinkedTo, PointsAt, AllSteps;
    var steps := AllSteps(units);
    assert units[..|units|] == units && steps[..|steps|] == steps;
    LinkIsSteps(Start(given), units, |units|);
    EndsBy(Start(given), steps, |steps|);
  }

  /** Merging goes on: addresses stay, and what is there stays at its place. */
  predicate Grows(a: Plan, b: Plan)
  {
    && (forall id :: id in a.loads ==> id in b.loads && b.loads[id] == a.loads[id])
    && a.code <= b.code && a.data <= b.data && a.log <= b.log
  }

  lemma GrowsOn(a: Plan, b: Plan, c: Plan)
    requires Grows(a, b) && Grows(b, c)
    ensures Grows(a, c)
  {
  }

  lemma ChunkGrows(p: Plan, steps: seq<Step>, k: nat)
    requires k < |steps| && !Before(p, steps, k).exited
    ensures Grows(Before(p, steps, k), At(p, steps, k)) && Grows(At(p, steps, k), Before(p, steps, k + 1))
  {
    hide PlanSteps, ChunkRun, End, Before;
    NextBefore(p, steps, k);
  }

  lemma {:induction false} BeforeGrows(p: Plan, steps: seq<Step>, k: nat, m: nat)
    requires k <= m <= |steps|
    ensures Grows(Before(p, steps, k), Before(p, steps, m))
    decreases m - k
  {
    hide Before;
    if k < m {
      if Before(p, steps, k).exited {
        NoneAfter(p, steps, k, m);
      } else {
        ChunkGrows(p, steps, k);
        BeforeGrows(p, steps, k + 1, m);
      }
    }
  }

  /** What is in place when the points of chunk k are relocated is in place from then on. */
  lemma AtGrows(p: Plan, steps: seq<Step>, k: nat, m: nat)
    requires k < m <= |steps| && !Before(p, steps, m).exited
    ensures !Before(p, steps, k).exited && Grows(p, At(p, steps, k)) && Grows(At(p, steps, k), Before(p, steps, m))
  {
    hide Before, At, Grows;
    if Before(p, steps, k).exited { NoneAfter(p, steps, k, m); }
    BeforeStart(p, steps);
    BeforeGrows(p, steps, 0, k);
    ChunkGrows(p, steps, k);
    BeforeGrows(p, steps, k + 1, m);
    GrowsOn(p, Before(p, steps, k), At(p, steps, k));
    GrowsOn(At(p, steps, k), Before(p, steps, k + 1), Before(p, steps, m));
  }

  lemma BeforeStart(p: Plan, steps: seq<Step>)
    ensures Before(p, steps, 0) == p && Before(p, steps, |steps|) == PlanSteps(p, steps)
  {
    assert steps[..0] == [] && steps[..|steps|] == steps;
  }

  lemma AcceptedAt(p: Plan, steps: seq<Step>, m: nat)
    requires m < |steps| && Accepted(p, steps) && !Before(p, steps, m).exited
    ensures !Refuses(Before(p, steps, m), steps[m].chunk)
  {
    hide PlanChunk, Refuses;
    assert steps == steps[..m] + steps[m..];
    StepsJoin(p, steps[..m], steps[m..]);
  }

  /** Behind the end of all that is merged a point finds nothing. */
  lemma BeyondAll(q: Plan, point: ResolvePoint)
    requires !point.isRelative && point.chunk in q.loads
    requires forall i :: 0 <= i < |Pick(q.code, q.data, point.segment)| ==>
               Pick(q.code, q.data, point.segment)[i].EndAddress() <= q.loads[point.chunk]
    ensures NothingThere(q, point)
  {
  }

  /** A chunk with a given address that is accepted later lies behind all that is merged now. */
  lemma LateFindsNothing(p: Plan, steps: seq<Step>, k: nat, m: nat, point: ResolvePoint)
    requires k < m < |steps| && Accepted(p, steps) && !Before(p, steps, m).exited
    requires !point.isRelative && point.chunk == steps[m].chunk.id && point.chunk in p.loads
    ensures NothingThere(At(p, steps, k), point)
  {
    hide PlanSteps, Accepted, Before, At, NothingThere;
    AcceptedAt(p, steps, m);
    AtGrows(p, steps, k, m);
    var q, later := At(p, steps, k), Before(p, steps, m);
    BeforeStart(p, steps);
    BeforeGrows(p, steps, 0, m);
    var chunks, all := Pick(q.code, q.data, point.segment), Pick(later.code, later.data, point.segment);
    forall i | 0 <= i < |chunks| ensures chunks[i].EndAddress() <= q.loads[point.chunk] {
      assert chunks[i] == all[i] && all[i].EndAddress() <= End(all) <= End(later.code) + End(later.data);
    }
    BeyondAll(q, point);
  }

  /**
   A label that is used, by its absolute address, from a chunk with a given address that is merged
   after the label's own chunk: the link never succeeds. It ends the program, unless the chunk is
   refused or an earlier point of the label's chunk fails.
   */
  lemma LateGiven(given: map<nat, nat>, units: seq<CompileUnit>, k: nat, m: nat, j: nat)
    requires var steps := AllSteps(units);
             && k < m < |steps| && j < |PointsAt(steps, k)|
             && var point := PointsAt(steps, k)[j]; !point.isRelative && point.chunk == steps[m].chunk.id && point.chunk in given
    ensures var p, plan, steps := Start(given), PlanUnits(Start(given), units), AllSteps(units);
            !plan.refused ==> plan.lost && (plan.exited || !LinkedTo(p, steps, k, j))
  {
    hide PlanUnits, PlanSteps, AllSteps, Accepted, Before, At, OutcomeAt, NothingThere;
    var p, plan, steps := Start(given), PlanUnits(Start(given), units), AllSteps(units);
    var point := PointsAt(steps, k)[j];
    if !plan.refused {
      ExitsExactly(given, units);
      assert units[..|units|] == units;
      LinkIsSteps(p, units, |units|);
      BeforeStart(p, steps);
      if plan.exited {
        ExitLoses(p, steps, units);
      } else {
        Alive(p, steps, k, m);
        LateFindsNothing(p, steps, k, m, point);
        NotLinked(p, steps, k, j);
      }
    }
  }

  lemma ExitLoses(p: Plan, steps: seq<Step>, units: seq<CompileUnit>)
    requires steps == AllSteps(units) && exists k :: 0 <= k < |steps| && !Before(p, steps, k).exited && LooksInVain(p, steps, k)
    ensures exists k :: 0 <= k < |steps| && !Before(p, steps, k).exited && !LinkedTo(p, steps, k, |PointsAt(steps, k)|)
  {
    hide AllSteps, Before, At, OutcomeAt, NothingThere, PointsAt;
    var k :| 0 <= k < |steps| && !Before(p, steps, k).exited && LooksInVain(p, steps, k);
    var j :| 0 <= j < |PointsAt(steps, k)| && NothingThere(At(p, steps, k), PointsAt(steps, k)[j]) && LinkedTo(p, steps, k, j);
    NotLinked(p, steps, k, j);
  }

  lemma Alive(p: Plan, steps: seq<Step>, k: nat, m: nat)
    requires k < m < |steps| && !Before(p, steps, |steps|).exited
    ensures !Before(p, steps, k).exited && !Before(p, steps, m).exited
  {
    hide Before;
    if Before(p, steps, m).exited { NoneAfter(p, steps, m, |steps|); }
    if Before(p, steps, k).exited { NoneAfter(p, steps, k, |steps|); }
  }

  lemma NotLinked(p: Plan, steps: seq<Step>, k: nat, j: nat)
    requires k < |steps| && j < |PointsAt(steps, k)| && NothingThere(At(p, steps, k), PointsAt(steps, k)[j])
    ensures OutcomeAt(p, steps, k, PointsAt(steps, k)[j]) == Exited && !LinkedTo(p, steps, k, |PointsAt(steps, k)|)
    ensures LinkedTo(p, steps, k, j) ==> LooksInVain(p, steps, k)
  {
    hide At, NothingThere, PointOutcome, PointsAt;
    var q, kind := At(p, steps, k), steps[k].kind;
    PointExits(q, PointsAt(steps, k)[j], kind, |Pick(q.code, q.data, kind)| - 1);
  }

  predicate DistinctSteps(steps: seq<Step>)
  {
    forall i, j :: 0 <= i < j < |steps| ==> steps[i].chunk.id != steps[j].chunk.id
  }

  function StepIds(steps: seq<Step>): set<nat>
  {
    set s | s in steps :: s.chunk.id
  }

  lemma {:induction false} UnitsDistinct(units: seq<CompileUnit>, n: nat)
    requires SoundUnits(units) && n <= |units|
    ensures DistinctSteps(AllSteps(units[..n])) && StepIds(AllSteps(units[..n])) == IdsOf(units[..n])
    decreases n
  {
    hide SoundUnit, UnitSteps, UnitIds;
    if n > 0 {
      var unit := units[n - 1];
      UnitsDistinct(units, n - 1);
      assert units[..n][..n - 1] == units[..n - 1];
      UnitDistinct(unit);
      JoinDistinct(AllSteps(units[..n - 1]), UnitSteps(unit));
    }
  }

  lemma UnitDistinct(unit: CompileUnit)
    requires SoundUnit(unit)
    ensures DistinctSteps(UnitSteps(unit)) && StepIds(UnitSteps(unit)) == UnitIds(unit)
  {
    hide SoundUnit;
    DistinctChunks(unit);
    var steps, chunks := UnitSteps(unit), ChunksOf(unit);
    forall i | 0 <= i < |steps| ensures steps[i].chunk == chunks[i] {
    }
    forall id | id in Ids(chunks) ensures id in StepIds(steps) {
      var i :| 0 <= i < |chunks| && chunks[i].id == id;
      assert steps[i] in steps;
    }
  }

  lemma JoinDistinct(a: seq<Step>, b: seq<Step>)
    requires DistinctSteps(a) && DistinctSteps(b) && StepIds(a) !! StepIds(b)
    ensures DistinctSteps(a + b) && StepIds(a + b) == StepIds(a) + StepIds(b)
  {
    forall i, j | 0 <= i < j < |a + b| ensures (a + b)[i].chunk.id != (a + b)[j].chunk.id {
      if i < |a| <= j {
        assert a[i].chunk.id in StepIds(a) && b[j - |a|].chunk.id in StepIds(b);
      }
    }
  }

  /** Every merged chunk has its place, and nothing else lies in the segments. */
  ghost predicate Whole(p: Plan, steps: seq<Step>)
  {
    Good(p) && AllOwned(p.code, p.data, p.places) && p.places.Keys == StepIds(steps)
  }

  lemma LoadedWhole(p: Plan, steps: seq<Step>, step: Step)
    requires Whole(p, steps) && !Refuses(p, step.chunk) && step.chunk.id !in StepIds(steps)
    ensures Whole(Loaded(p, step.chunk, step.kind), steps + [step])
  {
    hide Good, AllOwned, Refuses, LoadFor;
    LoadedGood(p, step.chunk, step.kind);
    OwnedNext(p.code, p.data, p.places, step.kind, step.chunk.id, Chunk(LoadFor(p, step.chunk), step.chunk.bytes));
    assert StepIds(steps + [step]) == StepIds(steps) + {step.chunk.id};
  }

  lemma NewStep(steps: seq<Step>, n: nat)
    requires DistinctSteps(steps) && n < |steps|
    ensures steps[n].chunk.id !in StepIds(steps[..n]) && steps[..n + 1] == steps[..n] + [steps[n]]
  {
  }

  lemma {:induction false} BeforeWhole(given: map<nat, nat>, steps: seq<Step>, n: nat)
    requires DistinctSteps(steps) && Accepted(Start(given), steps) && n <= |steps| && !Before(Start(given), steps, n).exited
    ensures Whole(Before(Start(given), steps, n), steps[..n])
    ensures n < |steps| ==> Whole(At(Start(given), steps, n), steps[..n + 1])
    decreases n
  {
    hide DistinctSteps, Accepted, Whole, Before, Refuses, RunOf, Loaded;
    var p := Start(given);
    if n == 0 {
      BeforeStart(p, steps);
      NothingWhole(given, steps[..0]);
    } else {
      if Before(p, steps, n - 1).exited { NoneAfter(p, steps, n - 1, n); }
      BeforeWhole(given, steps, n - 1);
      NextBefore(p, steps, n - 1);
      SameWhole(At(p, steps, n - 1), Before(p, steps, n), steps[..n]);
    }
    if n < |steps| {
      AcceptedAt(p, steps, n);
      NewStep(steps, n);
      LoadedWhole(Before(p, steps, n), steps[..n], steps[n]);
    }
  }

  lemma NothingWhole(given: map<nat, nat>, steps: seq<Step>)
    requires |steps| == 0
    ensures Whole(Start(given), steps)
  {
    NothingPlanned(given);
  }

  lemma SameWhole(p: Plan, q: Plan, steps: seq<Step>)
    requires Whole(p, steps) && q == p.(log := q.log, lost := q.lost, exited := q.exited)
    ensures Whole(q, steps)
  {
    hide Laid, Placed, AllOwned;
  }

  /** Chunks keep their places. */
  predicate PlacesKept(a: Plan, b: Plan)
  {
    forall id :: id in a.places ==> id in b.places && b.places[id] == a.places[id]
  }

  lemma {:induction false} PlacesGrow(given: map<nat, nat>, steps: seq<Step>, k: nat, m: nat)
    requires DistinctSteps(steps) && Accepted(Start(given), steps) && k < m <= |steps| && !Before(Start(given), steps, m).exited
    ensures !Before(Start(given), steps, k).exited && PlacesKept(At(Start(given), steps, k), Before(Start(given), steps, m))
    decreases m - k
  {
    hide DistinctSteps, Accepted, Before, RunOf, LoadFor, Good, AllOwned, StepIds;
    var p := Start(given);
    if Before(p, steps, k).exited { NoneAfter(p, steps, k, m); }
    NextBefore(p, steps, k);
    if k + 1 < m {
      PlacesGrow(given, steps, k + 1, m);
      BeforeWhole(given, steps, k + 1);
      NewStep(steps, k + 1);
    }
  }

  lemma {:induction false} LabelWrites(code: seq<Chunk>, data: seq<Chunk>, loads: map<nat, nat>, identifier: LocalIdentifier,
                                       points: seq<ResolvePoint>, kind: SegmentType, k: nat, point: ResolvePoint)
    requires k < |Pick(code, data, kind)| && LabelRun(code, data, loads, identifier, points, kind, k).res.Linked? && point in points
    ensures PointOutcome(code, data, loads, point, kind, k) == Linked
    ensures PointWrite(code, data, loads, identifier, point, kind, k)
            in LabelRun(code, data, loads, identifier, points, kind, k).writes
  {
    hide PointOutcome, PointWrite;
    if point != points[0] {
      LabelWrites(code, data, loads, identifier, points[1..], kind, k, point);
    }
  }

  lemma {:induction false} ChunkWrites(code: seq<Chunk>, data: seq<Chunk>, loads: map<nat, nat>, identifiers: seq<LocalIdentifier>, id: nat,
                                       kind: SegmentType, k: nat, x: LocalRef)
    requires k < |Pick(code, data, kind)| && ChunkRun(code, data, loads, identifiers, id, kind, k).res.Linked?
    requires x in RefsIn(identifiers, {id})
    ensures PointOutcome(code, data, loads, x.point, kind, k) == Linked
    ensures PointWrite(code, data, loads, x.owner, x.point, kind, k) in ChunkRun(code, data, loads, identifiers, id, kind, k).writes
  {
    hide PointOutcome, PointWrite, LabelRun, RefsIn, After;
    HasLabel(identifiers, id, x);
    FirstRefs(identifiers, id);
    var first := identifiers[0];
    var run := LabelRun(code, data, loads, first, first.points, kind, k);
    var rest := ChunkRun(code, data, loads, identifiers[1..], id, kind, k);
    AfterEnds(run.writes, rest);
    if first.symbol.chunk == id && x in RefsOf(first, first.points) {
      LabelWrites(code, data, loads, first, first.points, kind, k, x.point);
    } else {
      ChunkWrites(code, data, loads, identifiers[1..], id, kind, k, x);
    }
  }

  lemma HasLabel(identifiers: seq<LocalIdentifier>, id: nat, x: LocalRef)
    requires x in RefsIn(identifiers, {id})
    ensures |identifiers| > 0 && x.owner.symbol.chunk == id
  {
  }

  /** The number of an absolute point is written into this chunk, as if the point's own chunk loaded at 0. */
  ghost predicate WrittenInto(p: Plan, x: LocalRef, id: nat)
  {
    && id in p.places && p.places[id].kind == x.point.segment
    && LoadOf(p.loads, id) <= x.point.placeholder && x.point.placeholder + x.point.opSize <= |p.places[id].bytes|
    && Write(x.point.segment, p.places[id].index, x.point.placeholder, x.point.opSize, ValueOf(p.loads, x)) in p.log
  }

  /** A patched absolute point whose chunk has no address yet is written into some merged chunk. */
  lemma FoundForeign(q: Plan, steps: seq<Step>, x: LocalRef, kind: SegmentType, k: nat)
    requires Whole(q, steps) && k < |Pick(q.code, q.data, kind)| && !x.point.isRelative && x.point.chunk !in q.loads
    requires PointOutcome(q.code, q.data, q.loads, x.point, kind, k) == Linked
    requires PointWrite(q.code, q.data, q.loads, x.owner, x.point, kind, k) in q.log
    ensures exists id :: WrittenInto(q, x, id)
  {
    hide Laid, FindFrom, StepIds;
    var chunks := Pick(q.code, q.data, x.point.segment);
    var f := Find(chunks, x.point.placeholder).value;
    FindExact(chunks, x.point.placeholder, 0);
    assert Owned(q.places, x.point.segment, f);
    var id :| id in q.places && q.places[id].kind == x.point.segment && q.places[id].index == f;
    assert InPlace(chunks, q.places[id], q.loads[id]);
    assert WrittenInto(q, x, id);
  }

  lemma StaysWritten(a: Plan, b: Plan, x: LocalRef, id: nat)
    requires WrittenInto(a, x, id) && Grows(a, b) && PlacesKept(a, b) && !x.point.isRelative
    requires id in a.loads && x.owner.symbol.chunk in a.loads
    ensures WrittenInto(b, x, id)
  {
  }

  lemma {:induction false} LoadsKnown(given: map<nat, nat>, steps: seq<Step>, n: nat)
    requires n <= |steps| && !Before(Start(given), steps, n).exited
    ensures Before(Start(given), steps, n).loads.Keys <= given.Keys + StepIds(steps[..n])
    decreases n
  {
    hide Before, RunOf, LoadFor, StepIds;
    var p := Start(given);
    if n == 0 {
      BeforeStart(p, steps);
    } else {
      if Before(p, steps, n - 1).exited { NoneAfter(p, steps, n - 1, n); }
      LoadsKnown(given, steps, n - 1);
      NextBefore(p, steps, n - 1);
      OneMore(steps, n - 1);
    }
  }

  lemma OneMore(steps: seq<Step>, n: nat)
    requires n < |steps|
    ensures StepIds(steps[..n + 1]) == StepIds(steps[..n]) + {steps[n].chunk.id}
  {
    assert steps[..n + 1] == steps[..n] + [steps[n]];
  }

  lemma LaterId(steps: seq<Step>, n: nat, m: nat)
    requires DistinctSteps(steps) && n <= m < |steps|
    ensures steps[m].chunk.id !in StepIds(steps[..n])
  {
  }

  /** When all points of chunk k are patched, their writes are in the log right after it. */
  lemma PatchedNow(p: Plan, steps: seq<Step>, k: nat, x: LocalRef)
    requires k < |steps| && !Before(p, steps, k).exited && LinkedTo(p, steps, k, |PointsAt(steps, k)|)
    requires x in RefsIn(steps[k].identifiers, {steps[k].chunk.id})
    ensures var q, kind := Before(p, steps, k + 1), steps[k].kind; var at := |Pick(q.code, q.data, kind)| - 1;
            && q == At(p, steps, k).(log := q.log, lost := q.lost, exited := q.exited)
            && steps[k].chunk.id in q.loads && x.owner.symbol.chunk == steps[k].chunk.id
            && at >= 0 && PointOutcome(q.code, q.data, q.loads, x.point, kind, at) == Linked
            && PointWrite(q.code, q.data, q.loads, x.owner, x.point, kind, at) in q.log
  {
    hide PointOutcome, PointWrite, PointsIn, ChunkRun, RefsIn, Before, LoadFor, AllLinked, Meets;
    var q, kind := At(p, steps, k), steps[k].kind;
    var at := |Pick(q.code, q.data, kind)| - 1;
    NextBefore(p, steps, k);
    MetAt(p, steps, k);
    ChunkEnds(q.code, q.data, q.loads, steps[k].identifiers, steps[k].chunk.id, kind, at, Exited);
    HasLabel(steps[k].identifiers, steps[k].chunk.id, x);
    ChunkWrites(q.code, q.data, q.loads, steps[k].identifiers, steps[k].chunk.id, kind, at, x);
  }

  lemma LateWritten(given: map<nat, nat>, steps: seq<Step>, k: nat, m: nat, x: LocalRef)
    requires DistinctSteps(steps) && Accepted(Start(given), steps) && k < m < |steps|
    requires !Before(Start(given), steps, k).exited && !Before(Start(given), steps, |steps|).exited
    requires LinkedTo(Start(given), steps, k, |PointsAt(steps, k)|) && x in RefsIn(steps[k].identifiers, {steps[k].chunk.id})
    requires !x.point.isRelative && x.point.chunk == steps[m].chunk.id && x.point.chunk !in given
    ensures exists id :: id != x.point.chunk && WrittenInto(Before(Start(given), steps, |steps|), x, id)
  {
    hide DistinctSteps, Accepted, LinkedTo, RefsIn, Before, Loaded, PointOutcome, PointWrite, WrittenInto;
    hide StepIds, PointsAt, Grows, Good, AllOwned;
    var p, done := Start(given), |steps|;
    var q, last := Before(p, steps, k + 1), Before(p, steps, done);
    if q.exited { NoneAfter(p, steps, k + 1, done); }
    PatchedNow(p, steps, k, x);
    BeforeWhole(given, steps, k + 1);
    LoadsKnown(given, steps, k + 1);
    LaterId(steps, k + 1, m);
    FoundForeign(q, steps[..k + 1], x, steps[k].kind, |Pick(q.code, q.data, steps[k].kind)| - 1);
    var id :| WrittenInto(q, x, id);
    BeforeGrows(p, steps, k + 1, done);
    PlacesGrow(given, steps, k, done);
    HasLoad(q, steps[..k + 1], x, id);
    StaysWritten(q, last, x, id);
  }

  lemma HasLoad(q: Plan, steps: seq<Step>, x: LocalRef, id: nat)
    requires Whole(q, steps) && WrittenInto(q, x, id)
    ensures id in q.loads && id in StepIds(steps)
  {
    hide Laid, AllOwned, StepIds;
  }

  /**
   A label that is used, by its absolute address, from a chunk that is appended after the label's
   own chunk: its load address reads as 0 too early. A link that succeeds all the same has written
   the address at that place of another chunk.
   */
  lemma LateAppended(given: map<nat, nat>, units: seq<CompileUnit>, k: nat, m: nat, x: LocalRef)
    requires SoundUnits(units) && !Failed(PlanUnits(Start(given), units))
    requires var steps := AllSteps(units);
             && k < m < |steps| && x in RefsIn(steps[k].identifiers, {steps[k].chunk.id})
             && !x.point.isRelative && x.point.chunk == steps[m].chunk.id && x.point.chunk !in given
    ensures exists id :: id != x.point.chunk && WrittenInto(PlanUnits(Start(given), units), x, id)
  {
    hide SoundUnits, PlanUnits, PlanSteps, AllSteps, Accepted, Before, RefsIn, DistinctSteps, Whole, WrittenInto, ValueOf;
    var p, plan, steps := Start(given), PlanUnits(Start(given), units), AllSteps(units);
    assert units[..|units|] == units;
    LinkIsSteps(p, units, |units|);
    UnitsDistinct(units, |units|);
    BeforeStart(p, steps);
    Alive(p, steps, k, m);
    LateLinked(given, units, k);
    LateWritten(given, steps, k, m, x);
  }

  lemma LateLinked(given: map<nat, nat>, units: seq<CompileUnit>, k: nat)
    requires !Failed(PlanUnits(Start(given), units)) && k < |AllSteps(units)|
    ensures LinkedTo(Start(given), AllSteps(units), k, |PointsAt(AllSteps(units), k)|)
  {
    hide PlanUnits, AllSteps, LooksInVain, LinkedTo, PlanSteps, PointsAt;
    ExitsExactly(given, units);
    var p, steps := Start(given), AllSteps(units);
    assert units[..|units|] == units;
    LinkIsSteps(p, units, |units|);
    BeforeStart(p, steps);
    if Before(p, steps, k).exited { NoneAfter(p, steps, k, |steps|); }
  }

  /** Two chunks of four bytes; a label at the second byte of the first is used at the first byte of the second. */
  const Ahead := CompileUnit([UnitChunk(0, [0, 0, 0, 0]), UnitChunk(1, [0, 0, 0, 0])], [],
                             [LocalIdentifier("start", Identifier(0, 1), 1, [ResolvePoint(Code, 1, 1, false, 0)])], [])

  /** With the second chunk at 100 the program ends; appended, its placeholder stays zero and the first chunk is overwritten. */
  lemma UsedAhead()
    ensures var plan := PlanUnits(Start(map[1 := 100]), [Ahead]); plan.exited && !plan.refused
    ensures var plan := PlanUnits(Start(map[]), [Ahead]);
            && !Failed(plan) && 0 in plan.places && 1 in plan.places
            && Local(plan.places[0], plan.log) == [1, 0, 0, 0] && Local(plan.places[1], plan.log) == [0, 0, 0, 0]
  {
    AheadGiven();
    AheadAppended();
  }

  lemma AheadRun(loads: map<nat, nat>)
    ensures var run := ChunkRun([Chunk(0, [0, 0, 0, 0])], [], loads, Ahead.identifiers, 0, Code, 0);
            && (LoadOf(loads, 1) == 100 ==> run == LocalRun(Exited, []))
            && (LoadOf(loads, 1) == 0 ==> run == LocalRun(Linked, [Write(Code, 0, 0, 1, 1 + LoadOf(loads, 0))]))
  {
    var code, l := [Chunk(0, [0, 0, 0, 0])], Ahead.identifiers[0];
    var p := l.points[0];
    assert FindFrom(code, LocalAddress(loads, p), 1) == None;
    assert l.points[1..] == [] && Ahead.identifiers[1..] == [];
    assert LabelRun(code, [], loads, l, [], Code, 0) == LocalRun(Linked, []);
  }

  lemma AheadGiven()
    ensures var plan := PlanUnits(Start(map[1 := 100]), [Ahead]); plan.exited && !plan.refused
  {
    var p := Start(map[1 := 100]);
    var mid := PlanChunk(p, Ahead.identifiers, Ahead.code[0], Code);
    assert Loaded(p, Ahead.code[0], Code).code == [Chunk(0, [0, 0, 0, 0])];
    AheadRun(Loaded(p, Ahead.code[0], Code).loads);
    assert PlanSegment(p, Ahead.identifiers, Ahead.code, Code) == mid;
    assert PlanUnit(p, Ahead) == mid && [Ahead][1..] == [];
  }

  lemma AheadAppended()
    ensures var plan := PlanUnits(Start(map[]), [Ahead]);
            && !Failed(plan) && 0 in plan.places && 1 in plan.places
            && Local(plan.places[0], plan.log) == [1, 0, 0, 0] && Local(plan.places[1], plan.log) == [0, 0, 0, 0]
  {
    hide ChunkRun, Applied, End;
    var p, first, second := Start(map[]), Ahead.code[0], Ahead.code[1];
    var mid := PlanChunk(p, Ahead.identifiers, first, Code);
    assert Loaded(p, first, Code).code == [Chunk(0, first.bytes)] by { NoEnd(); }
    AheadRun(Loaded(p, first, Code).loads);
    NoLabel(Loaded(mid, second, Code));
    AheadBytes();
    var last := PlanChunk(mid, Ahead.identifiers, second, Code);
    assert last.log == [Write(Code, 0, 0, 1, 1)] && !Failed(last);
    TwoSteps(p, Ahead, mid, last);
  }

  lemma NoEnd()
    ensures End([]) == 0
  {
  }

  lemma TwoSteps(p: Plan, unit: CompileUnit, mid: Plan, last: Plan)
    requires |unit.code| == 2 && unit.data == [] && !p.exited && !mid.exited
    requires !Refuses(p, unit.code[0]) && mid == PlanChunk(p, unit.identifiers, unit.code[0], Code)
    requires !Refuses(mid, unit.code[1]) && last == PlanChunk(mid, unit.identifiers, unit.code[1], Code)
    ensures PlanUnits(p, [unit]) == last
  {
    hide PlanChunk, Refuses, PlanUnit;
    assert unit.code == [unit.code[0], unit.code[1]];
    OneUnit(p, unit);
    TwoChunks(p, unit, mid, last);
  }

  lemma OneUnit(p: Plan, unit: CompileUnit)
    requires !p.exited
    ensures PlanUnits(p, [unit]) == PlanUnit(p, unit)
  {
    hide PlanUnit;
    assert [unit][1..] == [];
  }

  lemma TwoChunks(p: Plan, unit: CompileUnit, mid: Plan, last: Plan)
    requires |unit.code| == 2 && unit.data == [] && !p.exited && !mid.exited
    requires !Refuses(p, unit.code[0]) && mid == PlanChunk(p, unit.identifiers, unit.code[0], Code)
    requires !Refuses(mid, unit.code[1]) && last == PlanChunk(mid, unit.identifiers, unit.code[1], Code)
    ensures PlanUnit(p, unit) == last
  {
    hide PlanChunk, Refuses;
    SegmentStep(p, unit.identifiers, unit.code, Code, 0);
    SegmentStep(mid, unit.identifiers, unit.code, Code, 1);
    assert unit.code[0..] == unit.code && unit.code[2..] == [];
  }

  lemma NoLabel(q: Plan)
    requires |q.code| == 2
    ensures ChunkRun(q.code, q.data, q.loads, Ahead.identifiers, 1, Code, 1) == LocalRun(Linked, [])
  {
    assert Ahead.identifiers[1..] == [];
  }

  lemma AheadBytes()
    ensures Applied([0, 0, 0, 0], [Write(Code, 0, 0, 1, 1)], Code, 0) == [1, 0, 0, 0]
    ensures Applied([0, 0, 0, 0], [Write(Code, 0, 0, 1, 1)], Code, 1) == [0, 0, 0, 0]
  {
    assert BigEndian(1, 1) == [1];
    assert [Write(Code, 0, 0, 1, 1)][..0] == [];
  }
}
