/** What local relocation writes over a whole link, and what the image shows of it. */
module LocalPoints {
  import opened Basics
  import opened Layout
  import opened Numbers
  import opened Powers
  import opened Merging
  import opened Units
  import opened Planning
  import opened Resolving
  import opened Image

  /** A label and one of the points that wait for it. */
  datatype LocalRef = LocalRef(owner: LocalIdentifier, point: ResolvePoint) {
    /** The chunk that is to be patched. */
    function Home(): nat
    {
      if point.isRelative then owner.symbol.chunk else point.chunk
    }
  }

  /** The local points of the labels in some chunks of a unit. */
  ghost function RefsIn(identifiers: seq<LocalIdentifier>, ids: set<nat>): set<LocalRef>
  {
    set i, p | 0 <= i < |identifiers| && p in identifiers[i].points && identifiers[i].symbol.chunk in ids :: LocalRef(identifiers[i], p)
  }

  ghost function AllRefs(units: seq<CompileUnit>): set<LocalRef>
  {
    if |units| == 0 then {}
    else AllRefs(units[..|units| - 1]) + RefsIn(units[|units| - 1].identifiers, UnitIds(units[|units| - 1]))
  }

  /** The number that a point waits for. */
  function ValueOf(loads: map<nat, nat>, x: LocalRef): nat
  {
    if x.point.isRelative then Distance(x.owner, x.point)
    else x.owner.symbol.relativeAddress + LoadOf(loads, x.owner.symbol.chunk)
  }

  /** What is written for a point: its number, moved by the load address of the chunk. */
  function WriteOf(loads: map<nat, nat>, places: map<nat, Place>, x: LocalRef): Write
    requires x.Home() in places
  {
    var place := places[x.Home()];
    Write(place.kind, place.index, x.point.placeholder + LoadOf(loads, x.Home()), x.point.opSize, ValueOf(loads, x))
  }

  /** The moved point is inside the chunk. */
  predicate Fits(loads: map<nat, nat>, places: map<nat, Place>, x: LocalRef)
    requires x.Home() in places
  {
    x.point.placeholder + LoadOf(loads, x.Home()) + x.point.opSize <= |places[x.Home()].bytes|
  }

  /** The layout of a plan: chunks in order, each at its place. */
  ghost predicate Good(p: Plan)
  {
    Laid(p.code, p.data) && Placed(p.code, p.data, p.loads, p.places)
  }

  lemma LoadedGood(p: Plan, c: UnitChunk, kind: SegmentType)
    requires Good(p) && !Refuses(p, c) && c.id !in p.places
    ensures Good(Loaded(p, c, kind))
  {
    hide Laid, Placed, End, Bytes;
    LaidNext(p.code, p.data, kind, Chunk(LoadFor(p, c), c.bytes));
    PlacedNext(p.code, p.data, p.loads, p.places, kind, c.id, LoadFor(p, c), c.bytes);
  }

  /** An absolute point that lies in a chunk merged so far. */
  predicate Settled(places: map<nat, Place>, x: LocalRef)
  {
    && x.Home() in places && OperandSize(x.point.opSize)
    && (!x.point.isRelative ==> Within(x.point, x.Home(), places[x.Home()].kind, |places[x.Home()].bytes|))
  }

  /** A settled point finds its own chunk, and succeeds exactly if the moved point fits into that. */
  lemma PointSettled(q: Plan, x: LocalRef, kind: SegmentType, k: nat)
    requires Good(q) && Settled(q.places, x) && k < |Pick(q.code, q.data, kind)|
    requires x.owner.symbol.chunk in q.places && q.places[x.owner.symbol.chunk].kind == kind && q.places[x.owner.symbol.chunk].index == k
    ensures PointOutcome(q.code, q.data, q.loads, x.point, kind, k) == if Fits(q.loads, q.places, x) then Linked else Unlinked
    ensures PointWrite(q.code, q.data, q.loads, x.owner, x.point, kind, k) == WriteOf(q.loads, q.places, x)
  {
    hide Apart, FindFrom;
    var p, place := x.point, q.places[x.Home()];
    if !p.isRelative {
      FindOwn(Pick(q.code, q.data, place.kind), LocalAddress(q.loads, p), place.index, 0);
    }
  }

  ghost predicate AllSettled(places: map<nat, Place>, refs: set<LocalRef>)
  {
    forall x :: x in refs ==> x.Home() in places && x.owner.symbol.chunk in places && Settled(places, x)
  }

  /** How the relocation of these points ends, and what it writes. */
  ghost predicate Ran(loads: map<nat, nat>, places: map<nat, Place>, run: LocalRun, refs: set<LocalRef>)
    requires AllSettled(places, refs)
  {
    && !run.res.Exited?
    && (run.res.Linked? <==> forall x :: x in refs ==> Fits(loads, places, x))
    && (forall w :: w in run.writes ==> exists x :: x in refs && w == WriteOf(loads, places, x))
    && (run.res.Linked? ==> forall x :: x in refs ==> WriteOf(loads, places, x) in run.writes)
  }

  /** Going on after some points have succeeded, or stopping because one has not. */
  lemma RanThen(loads: map<nat, nat>, places: map<nat, Place>, first: LocalRun, a: set<LocalRef>, rest: LocalRun, b: set<LocalRef>)
    requires AllSettled(places, a) && AllSettled(places, b) && Ran(loads, places, first, a)
    requires first.res.Linked? ==> Ran(loads, places, rest, b)
    ensures AllSettled(places, a + b)
    ensures Ran(loads, places, if first.res.Linked? then After(first.writes, rest) else first, a + b)
  {
    hide Settled, Fits, WriteOf;
    var run := if first.res.Linked? then After(first.writes, rest) else first;
    forall w | w in run.writes ensures exists x :: x in a + b && w == WriteOf(loads, places, x) {
      if w in first.writes {
        var x :| x in a && w == WriteOf(loads, places, x);
        assert x in a + b;
      } else {
        var x :| x in b && w == WriteOf(loads, places, x);
        assert x in a + b;
      }
    }
    if !first.res.Linked? {
      var x :| x in a && !Fits(loads, places, x);
      assert x in a + b;
    }
  }

  ghost function RefsOf(identifier: LocalIdentifier, points: seq<ResolvePoint>): set<LocalRef>
  {
    set p | p in points :: LocalRef(identifier, p)
  }

  lemma {:induction false} LabelRan(q: Plan, identifier: LocalIdentifier, points: seq<ResolvePoint>, kind: SegmentType, k: nat)
    requires Good(q) && AllSettled(q.places, RefsOf(identifier, points)) && k < |Pick(q.code, q.data, kind)|
    requires identifier.symbol.chunk in q.places
    requires q.places[identifier.symbol.chunk].kind == kind && q.places[identifier.symbol.chunk].index == k
    ensures Ran(q.loads, q.places, LabelRun(q.code, q.data, q.loads, identifier, points, kind, k), RefsOf(identifier, points))
  {
    hide Good, Settled, Fits, WriteOf, PointOutcome, PointWrite;
    if |points| > 0 {
      var x := LocalRef(identifier, points[0]);
      assert RefsOf(identifier, points) == {x} + RefsOf(identifier, points[1..]);
      assert x in RefsOf(identifier, points);
      PointSettled(q, x, kind, k);
      LabelRan(q, identifier, points[1..], kind, k);
      var first := if Fits(q.loads, q.places, x) then LocalRun(Linked, [WriteOf(q.loads, q.places, x)]) else LocalRun(Unlinked, []);
      RanThen(q.loads, q.places, first, {x}, LabelRun(q.code, q.data, q.loads, identifier, points[1..], kind, k),
              RefsOf(identifier, points[1..]));
    }
  }

  lemma {:induction false} ChunkRan(q: Plan, identifiers: seq<LocalIdentifier>, id: nat, kind: SegmentType, k: nat)
    requires Good(q) && AllSettled(q.places, RefsIn(identifiers, {id})) && k < |Pick(q.code, q.data, kind)|
    requires id in q.places && q.places[id].kind == kind && q.places[id].index == k
    ensures Ran(q.loads, q.places, ChunkRun(q.code, q.data, q.loads, identifiers, id, kind, k), RefsIn(identifiers, {id}))
  {
    hide Good, Settled, Fits, WriteOf, LabelRun, After, Ran;
    if |identifiers| == 0 {
      NothingRan(q.loads, q.places, identifiers, id);
    } else {
      var first, rest := identifiers[0], identifiers[1..];
      FirstRefs(identifiers, id);
      if first.symbol.chunk == id {
        LabelRan(q, first, first.points, kind, k);
        if LabelRun(q.code, q.data, q.loads, first, first.points, kind, k).res.Linked? { ChunkRan(q, rest, id, kind, k); }
        RanThen(q.loads, q.places, LabelRun(q.code, q.data, q.loads, first, first.points, kind, k), RefsOf(first, first.points),
                ChunkRun(q.code, q.data, q.loads, rest, id, kind, k), RefsIn(rest, {id}));
      } else {
        ChunkRan(q, rest, id, kind, k);
      }
    }
  }

  lemma NothingRan(loads: map<nat, nat>, places: map<nat, Place>, identifiers: seq<LocalIdentifier>, id: nat)
    requires |identifiers| == 0 && AllSettled(places, RefsIn(identifiers, {id}))
    ensures Ran(loads, places, LocalRun(Linked, []), RefsIn(identifiers, {id}))
  {
  }

  lemma FirstRefs(identifiers: seq<LocalIdentifier>, id: nat)
    requires |identifiers| > 0
    ensures RefsIn(identifiers, {id}) ==
            if identifiers[0].symbol.chunk == id then RefsOf(identifiers[0], identifiers[0].points) + RefsIn(identifiers[1..], {id})
            else RefsIn(identifiers[1..], {id})
  {
    var first, rest := identifiers[0], identifiers[1..];
    forall x ensures x in RefsIn(identifiers, {id}) <==>
                     (first.symbol.chunk == id && x in RefsOf(first, first.points)) || x in RefsIn(rest, {id})
    {
      if x in RefsIn(identifiers, {id}) {
        var i :| 0 <= i < |identifiers| && x.owner == identifiers[i] && x.point in identifiers[i].points;
        if i > 0 { assert rest[i - 1] == identifiers[i]; }
      }
      if x in RefsIn(rest, {id}) {
        var i :| 0 <= i < |rest| && x.owner == rest[i] && x.point in rest[i].points;
        assert identifiers[i + 1] == rest[i];
      }
    }
  }

  /** The log holds the writes of these points and no others, and something is lost exactly if one of them does not fit. */
  ghost predicate Explains(p: Plan, refs: set<LocalRef>)
  {
    && AllSettled(p.places, refs)
    && (forall w :: w in p.log ==> exists x :: x in refs && w == WriteOf(p.loads, p.places, x))
    && (p.lost <==> exists x :: x in refs && !Fits(p.loads, p.places, x))
    && (!p.lost ==> forall x :: x in refs ==> WriteOf(p.loads, p.places, x) in p.log)
  }

  /** A further chunk changes nothing for the points of the earlier ones. */
  lemma WriteStays(p: Plan, c: UnitChunk, kind: SegmentType, x: LocalRef)
    requires c.id !in p.places && x.Home() in p.places && x.owner.symbol.chunk in p.places && Settled(p.places, x)
    ensures var q := Loaded(p, c, kind);
            && x.Home() in q.places && x.owner.symbol.chunk in q.places && Settled(q.places, x)
            && WriteOf(q.loads, q.places, x) == WriteOf(p.loads, p.places, x)
            && (Fits(q.loads, q.places, x) <==> Fits(p.loads, p.places, x))
  {
    hide Distance, OperandSize;
  }

  lemma ExplainsNext(p: Plan, refs: set<LocalRef>, identifiers: seq<LocalIdentifier>, c: UnitChunk, kind: SegmentType)
    requires Good(p) && Explains(p, refs) && !p.exited && !Refuses(p, c) && c.id !in p.places
    requires AllSettled(Loaded(p, c, kind).places, RefsIn(identifiers, {c.id}))
    ensures var after := PlanChunk(p, identifiers, c, kind);
            Good(after) && Explains(after, refs + RefsIn(identifiers, {c.id})) && !after.exited
  {
    var q, run, more := Loaded(p, c, kind), RunOf(p, identifiers, c, kind), RefsIn(identifiers, {c.id});
    LoadedGood(p, c, kind);
    ChunkRan(q, identifiers, c.id, kind, |Pick(p.code, p.data, kind)|);
    hide Good, Settled, Fits, WriteOf, RefsIn, RunOf, Loaded, Refuses;
    forall x | x in refs
      ensures x.Home() in q.places && x.owner.symbol.chunk in q.places && Settled(q.places, x)
      ensures WriteOf(q.loads, q.places, x) == WriteOf(p.loads, p.places, x)
      ensures Fits(q.loads, q.places, x) <==> Fits(p.loads, p.places, x)
    {
      WriteStays(p, c, kind, x);
    }
    JoinExplained(p, q, run, refs, more);
  }

  lemma JoinExplained(p: Plan, q: Plan, run: LocalRun, refs: set<LocalRef>, more: set<LocalRef>)
    requires Explains(p, refs) && AllSettled(q.places, more) && Ran(q.loads, q.places, run, more) && AllSettled(q.places, refs)
    requires forall x :: x in refs ==> WriteOf(q.loads, q.places, x) == WriteOf(p.loads, p.places, x)
    requires forall x :: x in refs ==> (Fits(q.loads, q.places, x) <==> Fits(p.loads, p.places, x))
    ensures Explains(q.(log := p.log + run.writes, lost := p.lost || !run.res.Linked?), refs + more)
  {
    hide Settled, Fits, WriteOf;
    var after := q.(log := p.log + run.writes, lost := p.lost || !run.res.Linked?);
    forall w | w in after.log ensures exists x :: x in refs + more && w == WriteOf(q.loads, q.places, x) {
      if w in p.log {
        var x :| x in refs && w == WriteOf(p.loads, p.places, x);
        assert x in refs + more;
      } else {
        var x :| x in more && w == WriteOf(q.loads, q.places, x);
        assert x in refs + more;
      }
    }
    if p.lost {
      var x :| x in refs && !Fits(p.loads, p.places, x);
      assert x in refs + more && !Fits(q.loads, q.places, x);
    } else if !run.res.Linked? {
      var x :| x in more && !Fits(q.loads, q.places, x);
      assert x in refs + more;
    }
  }

  function ChunksOf(unit: CompileUnit): seq<UnitChunk>
  {
    unit.code + unit.data
  }

  function KindAt(unit: CompileUnit, i: nat): SegmentType
  {
    if i < |unit.code| then Code else Data
  }

  /** The absolute points of a unit's labels lie in the unit's chunks, none in a chunk that is merged after its label's. */
  ghost predicate SettledUnit(unit: CompileUnit)
  {
    forall i, p, b :: 0 <= i < |unit.identifiers| && p in unit.identifiers[i].points && !p.isRelative
                      && 0 <= b < |ChunksOf(unit)| && ChunksOf(unit)[b].id == unit.identifiers[i].symbol.chunk ==>
      exists a :: 0 <= a <= b && Within(p, ChunksOf(unit)[a].id, KindAt(unit, a), |ChunksOf(unit)[a].bytes|)
  }

  /** The first n chunks of a unit are merged, and the others are not. */
  ghost predicate MergedTo(places: map<nat, Place>, unit: CompileUnit, n: nat)
    requires n <= |ChunksOf(unit)|
  {
    && (forall a :: 0 <= a < n ==> var c := ChunksOf(unit)[a];
          c.id in places && places[c.id].kind == KindAt(unit, a) && places[c.id].bytes == c.bytes)
    && (forall b :: n <= b < |ChunksOf(unit)| ==> ChunksOf(unit)[b].id !in places)
  }

  lemma DistinctChunks(unit: CompileUnit)
    requires SoundUnit(unit)
    ensures DistinctIds(ChunksOf(unit)) && Ids(ChunksOf(unit)) == UnitIds(unit)
  {
    var all := ChunksOf(unit);
    forall i, j | 0 <= i < j < |all| ensures all[i].id != all[j].id {
      if i < |unit.code| <= j {
        assert all[i] in unit.code && all[j] in unit.data;
        assert all[i].id in Ids(unit.code) && all[j].id in Ids(unit.data);
      }
    }
    forall c | c in unit.code || c in unit.data ensures c in all {
    }
  }

  lemma MergedNext(p: Plan, unit: CompileUnit, n: nat)
    requires SoundUnit(unit) && n < |ChunksOf(unit)| && MergedTo(p.places, unit, n)
    ensures MergedTo(Loaded(p, ChunksOf(unit)[n], KindAt(unit, n)).places, unit, n + 1)
  {
    hide SoundUnit;
    DistinctChunks(unit);
  }

  /** When a chunk is merged, the points of its labels are settled. */
  lemma ChunkSettled(p: Plan, unit: CompileUnit, n: nat)
    requires SoundUnit(unit) && SettledUnit(unit) && n < |ChunksOf(unit)| && MergedTo(p.places, unit, n)
    ensures var c := ChunksOf(unit)[n];
            AllSettled(Loaded(p, c, KindAt(unit, n)).places, RefsIn(unit.identifiers, {c.id}))
  {
    hide Within;
    assert SizedPoints(unit.identifiers);
    hide SoundUnit, SizedPoints;
    MergedNext(p, unit, n);
    var c := ChunksOf(unit)[n];
    var places := Loaded(p, c, KindAt(unit, n)).places;
    forall x | x in RefsIn(unit.identifiers, {c.id})
      ensures x.Home() in places && x.owner.symbol.chunk in places && Settled(places, x)
    {
      PointIsSettled(unit, places, n, x);
    }
  }

  lemma PointIsSettled(unit: CompileUnit, places: map<nat, Place>, n: nat, x: LocalRef)
    requires SettledUnit(unit) && SizedPoints(unit.identifiers) && n < |ChunksOf(unit)| && MergedTo(places, unit, n + 1)
    requires x in RefsIn(unit.identifiers, {ChunksOf(unit)[n].id})
    ensures x.Home() in places && x.owner.symbol.chunk in places && Settled(places, x)
  {
    hide OperandSize;
    var i :| 0 <= i < |unit.identifiers| && x.owner == unit.identifiers[i] && x.point in unit.identifiers[i].points;
    if !x.point.isRelative {
      var a :| 0 <= a <= n && Within(x.point, ChunksOf(unit)[a].id, KindAt(unit, a), |ChunksOf(unit)[a].bytes|);
    }
  }

  /** A plan in which everything so far is merged and explained. */
  ghost predicate OnTrack(p: Plan, unit: CompileUnit, n: nat, refs: set<LocalRef>)
    requires n <= |ChunksOf(unit)|
  {
    Good(p) && Explains(p, refs) && MergedTo(p.places, unit, n) && !p.exited
  }

  lemma RefsJoin(identifiers: seq<LocalIdentifier>, a: set<nat>, b: set<nat>)
    ensures RefsIn(identifiers, a + b) == RefsIn(identifiers, a) + RefsIn(identifiers, b)
  {
  }

  lemma NoRefs(identifiers: seq<LocalIdentifier>)
    ensures RefsIn(identifiers, {}) == {}
  {
  }

  lemma IdsFront(chunks: seq<UnitChunk>)
    requires |chunks| > 0
    ensures Ids(chunks) == {chunks[0].id} + Ids(chunks[1..])
  {
  }

  lemma {:induction false} SegmentExplained(p: Plan, unit: CompileUnit, n: nat, m: nat, kind: SegmentType, refs: set<LocalRef>)
    requires SoundUnit(unit) && SettledUnit(unit) && n <= m <= |ChunksOf(unit)| && OnTrack(p, unit, n, refs)
    requires forall i :: n <= i < m ==> KindAt(unit, i) == kind
    ensures var after := PlanSegment(p, unit.identifiers, ChunksOf(unit)[n..m], kind);
            !after.refused ==>
              && OnTrack(after, unit, m, refs + RefsIn(unit.identifiers, Ids(ChunksOf(unit)[n..m])))
              && after.places.Keys == p.places.Keys + Ids(ChunksOf(unit)[n..m])
    decreases m - n
  {
    hide SoundUnit, SettledUnit, Good, Explains, RefsIn, Refuses, RunOf, AllSettled, MergedTo, ChunksOf, KindAt;
    var chunks := ChunksOf(unit)[n..m];
    if n == m {
      NoRefs(unit.identifiers);
      assert Ids(chunks) == {} && refs + {} == refs;
    } else if !Refuses(p, chunks[0]) {
      var c, next := chunks[0], PlanChunk(p, unit.identifiers, chunks[0], kind);
      NotMerged(p.places, unit, n);
      ChunkSettled(p, unit, n);
      ExplainsNext(p, refs, unit.identifiers, c, kind);
      MergedNext(p, unit, n);
      SegmentExplained(next, unit, n + 1, m, kind, refs + RefsIn(unit.identifiers, {c.id}));
      assert chunks[1..] == ChunksOf(unit)[n + 1..m];
      IdsFront(chunks);
      RefsJoin(unit.identifiers, {c.id}, Ids(chunks[1..]));
      assert refs + RefsIn(unit.identifiers, {c.id}) + RefsIn(unit.identifiers, Ids(chunks[1..]))
          == refs + RefsIn(unit.identifiers, Ids(chunks));
    }
  }

  lemma NotMerged(places: map<nat, Place>, unit: CompileUnit, n: nat)
    requires n < |ChunksOf(unit)| && MergedTo(places, unit, n)
    ensures ChunksOf(unit)[n].id !in places
  {
  }

  lemma UnitStarts(places: map<nat, Place>, unit: CompileUnit)
    requires SoundUnit(unit) && places.Keys !! UnitIds(unit)
    ensures MergedTo(places, unit, 0) && |ChunksOf(unit)| == |unit.code| + |unit.data|
    ensures ChunksOf(unit)[0..|unit.code|] == unit.code && ChunksOf(unit)[|unit.code|..|ChunksOf(unit)|] == unit.data
  {
    DistinctChunks(unit);
    var all := ChunksOf(unit);
    forall b | 0 <= b < |all| ensures all[b].id !in places {
      assert all[b].id in Ids(all);
    }
  }

  lemma UnitExplained(p: Plan, unit: CompileUnit, refs: set<LocalRef>)
    requires SoundUnit(unit) && SettledUnit(unit) && Good(p) && Explains(p, refs) && !p.exited && p.places.Keys !! UnitIds(unit)
    ensures var after := PlanUnit(p, unit);
            !after.refused ==>
              && Good(after) && Explains(after, refs + RefsIn(unit.identifiers, UnitIds(unit))) && !after.exited
              && after.places.Keys == p.places.Keys + UnitIds(unit)
  {
    hide SoundUnit, SettledUnit, Good, Explains, RefsIn, MergedTo, PlanSegment, Ids, ChunksOf;
    var all, n, mid := ChunksOf(unit), |unit.code|, PlanSegment(p, unit.identifiers, unit.code, Code);
    UnitStarts(p.places, unit);
    SegmentExplained(p, unit, 0, n, Code, refs);
    SegmentFails(mid, unit.identifiers, unit.data, Data);
    if !mid.refused {
      var code := RefsIn(unit.identifiers, Ids(unit.code));
      SegmentExplained(mid, unit, n, |all|, Data, refs + code);
      RefsJoin(unit.identifiers, Ids(unit.code), Ids(unit.data));
      assert refs + code + RefsIn(unit.identifiers, Ids(unit.data)) == refs + RefsIn(unit.identifiers, UnitIds(unit));
    }
  }

  lemma {:induction false} UnitsNext(p: Plan, units: seq<CompileUnit>, n: nat)
    requires n < |units|
    ensures var q := PlanUnits(p, units[..n]); PlanUnits(p, units[..n + 1]) == if q.exited then q else PlanUnit(q, units[n])
    decreases n
  {
    hide PlanUnit;
    if n == 0 {
      assert units[..1][1..] == [] && units[..0] == [];
    } else if !p.exited {
      UnitsNext(PlanUnit(p, units[0]), units[1..], n - 1);
      assert units[..n + 1][1..] == units[1..][..n] && units[..n][1..] == units[1..][..n - 1];
    }
  }

  ghost predicate SettledUnits(units: seq<CompileUnit>)
  {
    forall u :: 0 <= u < |units| ==> SettledUnit(units[u])
  }

  /**
   Over a whole link of settled units in which no chunk is refused, no local point leaves the
   program, the writes are exactly those of the points, and a relocation fails exactly when some
   point, moved by the load address of its chunk, does not fit into the chunk.
   */
  lemma {:induction false} LinkExplained(given: map<nat, nat>, units: seq<CompileUnit>, n: nat)
    requires SoundUnits(units) && SettledUnits(units) && n <= |units|
    ensures var plan := PlanUnits(Start(given), units[..n]);
            !plan.refused ==> && Good(plan) && Explains(plan, AllRefs(units[..n])) && !plan.exited
                              && plan.places.Keys == IdsOf(units[..n])
    decreases n
  {
    hide SoundUnit, SettledUnit, Good, Explains, RefsIn, UnitIds, PlanUnit;
    if n == 0 {
      NothingPlanned(given);
      assert units[..0] == [];
    } else {
      var before := PlanUnits(Start(given), units[..n - 1]);
      LinkExplained(given, units, n - 1);
      UnitsNext(Start(given), units, n - 1);
      assert units[..n][..n - 1] == units[..n - 1];
      if !before.exited {
        UnitFails(before, units[n - 1]);
        if !before.refused { UnitExplained(before, units[n - 1], AllRefs(units[..n - 1])); }
      }
    }
  }

  lemma NothingPlanned(given: map<nat, nat>)
    ensures Good(Start(given)) && Explains(Start(given), {})
  {
  }

  lemma UnitFails(p: Plan, unit: CompileUnit)
    ensures p.refused ==> PlanUnit(p, unit).refused
  {
    hide PlanSegment;
    SegmentFails(p, unit.identifiers, unit.code, Code);
    SegmentFails(PlanSegment(p, unit.identifiers, unit.code, Code), unit.identifiers, unit.data, Data);
  }

  predicate Disjoint(a: nat, n: nat, b: nat, m: nat)
  {
    a + n <= b || b + m <= a
  }

  /** A write that no other write touches is what its bytes read as in the end. */
  lemma {:induction false} WriteStands(b: seq<Byte>, log: seq<Write>, w: Write)
    requires w in log && w.offset + w.size <= |b|
    requires forall v :: v in log && v.kind == w.kind && v.index == w.index && v != w ==> Disjoint(v.offset, v.size, w.offset, w.size)
    ensures Applied(b, log, w.kind, w.index)[w.offset..w.offset + w.size] == BigEndian(w.value, w.size)
  {
    hide BigEndian;
    var n := |log| - 1;
    if log[n] != w {
      WriteStands(b, log[..n], w);
      var rest, all := Applied(b, log[..n], w.kind, w.index), Applied(b, log, w.kind, w.index);
      assert all[w.offset..w.offset + w.size] == rest[w.offset..w.offset + w.size];
    }
  }

  /** A byte that no write touches stays as the unit had it. */
  lemma {:induction false} Untouched(b: seq<Byte>, log: seq<Write>, kind: SegmentType, index: nat, j: nat)
    requires j < |b| && forall v :: v in log && v.kind == kind && v.index == index ==> Disjoint(v.offset, v.size, j, 1)
    ensures Applied(b, log, kind, index)[j] == b[j]
  {
    hide BigEndian;
    if |log| > 0 {
      Untouched(b, log[..|log| - 1], kind, index, j);
    }
  }

  /** No two points of one chunk overlap. */
  ghost predicate Distinct(refs: set<LocalRef>)
  {
    forall x, y :: x in refs && y in refs && x.Home() == y.Home() ==>
      x == y || Disjoint(x.point.placeholder, x.point.opSize, y.point.placeholder, y.point.opSize)
  }

  /** No address of an import goes to these bytes of a chunk. */
  ghost predicate Clear(exports: seq<Export>, id: nat, at: nat, size: nat)
  {
    forall r :: r in References(exports) && r.point.chunk == id ==> Disjoint(r.point.placeholder, r.point.opSize, at, size)
  }

  /** All writes into one chunk are those of points of that chunk. */
  lemma OwnWrites(p: Plan, refs: set<LocalRef>, x: LocalRef, v: Write)
    requires Good(p) && Explains(p, refs) && x in refs && v in p.log
    requires v.kind == p.places[x.Home()].kind && v.index == p.places[x.Home()].index
    ensures exists y :: y in refs && y.Home() == x.Home() && v == WriteOf(p.loads, p.places, y)
  {
    hide Laid, Settled, Fits;
    var y :| y in refs && v == WriteOf(p.loads, p.places, y);
    assert y.Home() == x.Home();
  }

  /** The moved bytes of a point hold its number. */
  lemma LocalReads(p: Plan, refs: set<LocalRef>, x: LocalRef)
    requires Good(p) && Explains(p, refs) && !p.lost && Distinct(refs) && x in refs
    ensures var w := WriteOf(p.loads, p.places, x); var b := Local(p.places[x.Home()], p.log);
            w.offset + w.size <= |b| && b[w.offset..w.offset + w.size] == BigEndian(w.value, w.size)
  {
    hide BigEndian, Applied, Good, Settled, Distance;
    var w, place := WriteOf(p.loads, p.places, x), p.places[x.Home()];
    forall v | v in p.log && v.kind == w.kind && v.index == w.index && v != w ensures Disjoint(v.offset, v.size, w.offset, w.size) {
      OwnWrites(p, refs, x, v);
      var y :| y in refs && y.Home() == x.Home() && v == WriteOf(p.loads, p.places, y);
    }
    WriteStands(place.bytes, p.log, w);
  }

  /** A number in a chunk that no import touches is in the image exactly if it is in the chunk. */
  lemma ShownNumber(image: seq<Byte>, loads: map<nat, nat>, places: map<nat, Place>, exports: seq<Export>, log: seq<Write>,
                    id: nat, at: nat, size: nat, value: nat)
    requires LinkedImage(image, loads, places, exports, log) && id in places && Clear(exports, id, at, size)
    requires at + size <= |places[id].bytes| && size > 0
    ensures NumberAt(image, LoadOf(loads, id) + at, value, size) <==> Local(places[id], log)[at..at + size] == BigEndian(value, size)
  {
    hide References, AddressOf, BigEndian, Applied, ElsewhereBlank;
    var load, b := LoadOf(loads, id), Local(places[id], log);
    forall j | at <= j < at + size ensures ByteAt(image, load, b, j) {
      assert !Covered(References(exports), id, j);
    }
    assert ByteAt(image, load, b, at + size - 1);
    assert image[load + at..load + at + size] == b[at..at + size] by {
      forall j | at <= j < at + size ensures image[load + j] == b[j] {
        assert ByteAt(image, load, b, j);
      }
    }
  }

  /**
   In the image of a link of settled units in which nothing was refused or lost, the number of
   every local point stands at its place moved once more by the load address of its chunk.
   */
  lemma LocalPointInImage(given: map<nat, nat>, units: seq<CompileUnit>, image: seq<Byte>, exports: seq<Export>, x: LocalRef)
    requires SoundUnits(units) && SettledUnits(units) && Distinct(AllRefs(units)) && x in AllRefs(units)
    requires var plan := PlanUnits(Start(given), units);
             && !plan.refused && !plan.lost && LinkedImage(image, plan.loads, plan.places, exports, plan.log)
             && Clear(exports, x.Home(), x.point.placeholder + LoadOf(plan.loads, x.Home()), x.point.opSize)
    ensures var plan := PlanUnits(Start(given), units); var load := LoadOf(plan.loads, x.Home());
            NumberAt(image, load + x.point.placeholder + load, ValueOf(plan.loads, x), x.point.opSize)
  {
    hide SoundUnits, SettledUnits, AllRefs, Explains, Distinct, LinkedImage, Clear, BigEndian, Good, Applied, PlanUnits;
    var plan := PlanUnits(Start(given), units);
    LinkExplained(given, units, |units|);
    assert units[..|units|] == units;
    LocalReads(plan, AllRefs(units), x);
    PointSize(plan, AllRefs(units), x);
    ShownNumber(image, plan.loads, plan.places, exports, plan.log, x.Home(),
                x.point.placeholder + LoadOf(plan.loads, x.Home()), x.point.opSize, ValueOf(plan.loads, x));
  }

  lemma PointSize(p: Plan, refs: set<LocalRef>, x: LocalRef)
    requires Explains(p, refs) && x in refs
    ensures x.Home() in p.places && x.owner.symbol.chunk in p.places
    ensures x.point.opSize > 0
    ensures !x.point.isRelative ==> x.point.placeholder + x.point.opSize <= |p.places[x.Home()].bytes|
  {
  }

  /** What a relative point reads as in the image: the way back from behind the byte at its placeholder to the label. */
  lemma RelativeInImage(given: map<nat, nat>, units: seq<CompileUnit>, image: seq<Byte>, exports: seq<Export>, x: LocalRef)
    requires SoundUnits(units) && SettledUnits(units) && Distinct(AllRefs(units)) && x in AllRefs(units) && x.point.isRelative
    requires var plan := PlanUnits(Start(given), units);
             && !plan.refused && !plan.lost && LinkedImage(image, plan.loads, plan.places, exports, plan.log)
             && Clear(exports, x.Home(), x.point.placeholder + LoadOf(plan.loads, x.Home()), x.point.opSize)
    ensures var loads, at, size := PlanUnits(Start(given), units).loads, x.point.placeholder, x.point.opSize;
            && x.owner.symbol.chunk in loads
            && var load := loads[x.owner.symbol.chunk];
            && load + at + load + size <= |image|
            && var n := FromBigEndian(image[load + at + load..load + at + load + size]);
               (n + at + 1) % Pow(0x100, size) == x.owner.absoluteAddress % Pow(0x100, size)
  {
    hide SoundUnits, SettledUnits, AllRefs, Explains, Distinct, LinkedImage, Clear, Good, Applied, PlanUnits, Pow, BigEndian;
    hide FromBigEndian, Distance;
    var plan := PlanUnits(Start(given), units);
    LocalPointInImage(given, units, image, exports, x);
    LinkExplained(given, units, |units|);
    assert units[..|units|] == units;
    HomeLoaded(plan, AllRefs(units), x);
    var size, value := x.point.opSize, Distance(x.owner, x.point);
    ReadsBack(value, size);
    DistanceBack(x.owner, x.point, value % Pow(0x100, size));
  }

  lemma HomeLoaded(p: Plan, refs: set<LocalRef>, x: LocalRef)
    requires Good(p) && Explains(p, refs) && x in refs
    ensures x.Home() in p.loads && x.owner.symbol.chunk in p.loads && OperandSize(x.point.opSize)
  {
    hide Laid;
  }

  /** The 64-bit difference is right as far as the operand is wide. */
  lemma DistanceBack(identifier: LocalIdentifier, p: ResolvePoint, n: nat)
    requires OperandSize(p.opSize) && n == Distance(identifier, p) % Pow(0x100, p.opSize)
    ensures (n + p.placeholder + 1) % Pow(0x100, p.opSize) == identifier.absoluteAddress % Pow(0x100, p.opSize)
  {
    OperandPowers();
    hide Pow;
    var m := Pow(0x100, p.opSize);
    var q := if p.opSize == 1 then 0x100_0000_0000_0000 else if p.opSize == 2 then 0x1_0000_0000_0000
             else if p.opSize == 4 then 0x1_0000_0000 else 1;
    assert m * q == 0x1_0000_0000_0000_0000;
    SameBelow(identifier.absoluteAddress, p.placeholder, m, q, n);
  }

  lemma SameBelow(a: int, p: int, m: nat, q: nat, n: nat)
    requires m > 0 && q > 0 && m * q > 0 && n == (a - p - 1) % (m * q) % m
    ensures (n + p + 1) % m == a % m
  {
    var w, diff := m * q, a - p - 1;
    var t, d := diff / w, diff % w;
    DivideWith(diff, w);
    DivideWith(d, m);
    SumUp(a, p, m, q, t, d / m, n);
    WholeTimes(m, q * t + d / m, n + p + 1);
  }

  lemma DivideWith(x: int, m: nat)
    requires m > 0
    ensures x == m * (x / m) + x % m
  {
  }

  lemma SumUp(a: int, p: int, m: int, q: int, t: int, s: int, n: int)
    requires a - p - 1 == (m * q) * t + (m * s + n)
    ensures a == m * (q * t + s) + (n + p + 1)
  {
    MulAssoc(m, q, t);
    Distribute(m, q * t, s);
  }

  lemma WholeTimes(m: nat, k: int, x: int)
    requires m > 0
    ensures (m * k + x) % m == x % m
  {
    var q, r := x / m, x % m;
    Distribute(m, k, q);
    var c := (m * k + x) / m;
    assert m * k + x == m * (k + q) + r == m * c + (m * k + x) % m;
    if c < k + q { MulMono(c + 1, k + q, m); Distribute(m, c, 1); }
    if c > k + q { MulMono(k + q + 1, c, m); Distribute(m, k + q, 1); }
  }

  lemma OperandPowers()
    ensures Pow(0x100, 1) == 0x100 && Pow(0x100, 2) == 0x1_0000 && Pow(0x100, 4) == 0x1_0000_0000
    ensures Pow(0x100, 8) == 0x1_0000_0000_0000_0000
  {
    PowAdd(0x100, 2, 2);
    PowAdd(0x100, 4, 4);
  }

  /** What an absolute point reads as: the address at which its label lies in the image. */
  lemma AbsoluteInImage(given: map<nat, nat>, units: seq<CompileUnit>, image: seq<Byte>, exports: seq<Export>, x: LocalRef)
    requires SoundUnits(units) && SettledUnits(units) && Distinct(AllRefs(units)) && x in AllRefs(units) && !x.point.isRelative
    requires var plan := PlanUnits(Start(given), units);
             && !plan.refused && !plan.lost && LinkedImage(image, plan.loads, plan.places, exports, plan.log)
             && Clear(exports, x.Home(), x.point.placeholder + LoadOf(plan.loads, x.Home()), x.point.opSize)
    ensures var loads, at, size := PlanUnits(Start(given), units).loads, x.point.placeholder, x.point.opSize;
            && x.point.chunk in loads && x.owner.symbol.chunk in loads
            && var load := loads[x.point.chunk];
            && load + at + load + size <= |image|
            && FromBigEndian(image[load + at + load..load + at + load + size])
               == (loads[x.owner.symbol.chunk] + x.owner.symbol.relativeAddress) % Pow(0x100, size)
  {
    hide SoundUnits, SettledUnits, AllRefs, Explains, Distinct, LinkedImage, Clear, Good, Applied, PlanUnits, Pow, BigEndian;
    hide FromBigEndian;
    var plan := PlanUnits(Start(given), units);
    LocalPointInImage(given, units, image, exports, x);
    LinkExplained(given, units, |units|);
    assert units[..|units|] == units;
    HomeLoaded(plan, AllRefs(units), x);
    ReadsBack(plan.loads[x.owner.symbol.chunk] + x.owner.symbol.relativeAddress, x.point.opSize);
  }

  /** Nothing but the point's own moved number is written over its placeholder. */
  ghost predicate Alone(loads: map<nat, nat>, exports: seq<Export>, refs: set<LocalRef>, x: LocalRef)
  {
    && Clear(exports, x.Home(), x.point.placeholder, x.point.opSize)
    && forall y :: y in refs && y.Home() == x.Home() && y != x ==>
         Disjoint(y.point.placeholder + LoadOf(loads, y.Home()), y.point.opSize, x.point.placeholder, x.point.opSize)
  }

  /** What stands at the placeholder itself: the moved number, as far as it reaches, and the unit's bytes. */
  lemma PlaceholderBytes(p: Plan, refs: set<LocalRef>, exports: seq<Export>, x: LocalRef)
    requires Good(p) && Explains(p, refs) && !p.lost && Distinct(refs) && x in refs && Alone(p.loads, exports, refs, x)
    requires x.point.placeholder + x.point.opSize <= |p.places[x.Home()].bytes|
    ensures Fits(p.loads, p.places, x)
    ensures var w, place, at, size := WriteOf(p.loads, p.places, x), p.places[x.Home()], x.point.placeholder, x.point.opSize;
            Local(place, p.log)[at..at + size] == Patched(place.bytes, w.offset, w.value, w.size)[at..at + size]
  {
    hide BigEndian, Applied, Good, Settled, Distance, Patched, Clear;
    var w, place, at, size := WriteOf(p.loads, p.places, x), p.places[x.Home()], x.point.placeholder, x.point.opSize;
    LocalReads(p, refs, x);
    var b, c := Local(place, p.log), Patched(place.bytes, w.offset, w.value, w.size);
    forall j | at <= j < at + size ensures b[j] == c[j] {
      if w.offset <= j < w.offset + w.size {
        assert b[j] == b[w.offset..w.offset + w.size][j - w.offset] == c[w.offset..w.offset + w.size][j - w.offset] == c[j];
      } else {
        forall v | v in p.log && v.kind == place.kind && v.index == place.index ensures Disjoint(v.offset, v.size, j, 1) {
          OwnWrites(p, refs, x, v);
          var y :| y in refs && y.Home() == x.Home() && v == WriteOf(p.loads, p.places, y);
        }
        Untouched(place.bytes, p.log, place.kind, place.index, j);
      }
    }
  }

  /**
   The placeholder itself, in which the unit has zeros, reads as the number of the point if and
   only if its chunk loads at address 0.
   */
  lemma LocalPointReads(given: map<nat, nat>, units: seq<CompileUnit>, image: seq<Byte>, exports: seq<Export>, x: LocalRef)
    requires SoundUnits(units) && SettledUnits(units) && Distinct(AllRefs(units)) && x in AllRefs(units)
    requires var plan := PlanUnits(Start(given), units); var at, size := x.point.placeholder, x.point.opSize;
             && !plan.refused && !plan.lost && LinkedImage(image, plan.loads, plan.places, exports, plan.log)
             && Alone(plan.loads, exports, AllRefs(units), x) && ValueOf(plan.loads, x) % Pow(0x100, size) != 0
             && x.Home() in plan.places && at + size <= |plan.places[x.Home()].bytes|
             && forall j :: at <= j < at + size ==> plan.places[x.Home()].bytes[j] == 0
    ensures var plan := PlanUnits(Start(given), units); var load := LoadOf(plan.loads, x.Home());
            NumberAt(image, load + x.point.placeholder, ValueOf(plan.loads, x), x.point.opSize) <==> load == 0
  {
    hide SoundUnits, SettledUnits, AllRefs, Explains, Distinct, LinkedImage, Alone, Good, PlanUnits, Pow, NumberAt, ValueOf;
    LinkExplained(given, units, |units|);
    assert units[..|units|] == units;
    PlaceholderReads(PlanUnits(Start(given), units), AllRefs(units), image, exports, x);
  }

  lemma PlaceholderReads(p: Plan, refs: set<LocalRef>, image: seq<Byte>, exports: seq<Export>, x: LocalRef)
    requires Good(p) && Explains(p, refs) && !p.lost && Distinct(refs) && x in refs && Alone(p.loads, exports, refs, x)
    requires LinkedImage(image, p.loads, p.places, exports, p.log) && ValueOf(p.loads, x) % Pow(0x100, x.point.opSize) != 0
    requires x.Home() in p.places && x.point.placeholder + x.point.opSize <= |p.places[x.Home()].bytes|
    requires forall j :: x.point.placeholder <= j < x.point.placeholder + x.point.opSize ==> p.places[x.Home()].bytes[j] == 0
    ensures NumberAt(image, LoadOf(p.loads, x.Home()) + x.point.placeholder, ValueOf(p.loads, x), x.point.opSize)
            <==> LoadOf(p.loads, x.Home()) == 0
  {
    hide Explains, Distinct, LinkedImage, Clear, BigEndian, Good, Applied, Pow, NumberAt, ValueOf, Patched;
    PlaceholderBytes(p, refs, exports, x);
    PointSize(p, refs, x);
    LocalPointRight(p.places[x.Home()].bytes, LoadOf(p.loads, x.Home()), x.point, ValueOf(p.loads, x));
    ShownNumber(image, p.loads, p.places, exports, p.log, x.Home(), x.point.placeholder, x.point.opSize, ValueOf(p.loads, x));
  }

  lemma {:induction false} NothingRun(code: seq<Chunk>, data: seq<Chunk>, loads: map<nat, nat>, identifiers: seq<LocalIdentifier>, id: nat,
                                      kind: SegmentType, k: nat)
    requires NothingLocal(identifiers) && k < |Pick(code, data, kind)|
    ensures ChunkRun(code, data, loads, identifiers, id, kind, k) == LocalRun(Linked, [])
  {
    if |identifiers| > 0 {
      NothingRun(code, data, loads, identifiers[1..], id, kind, k);
    }
  }

  lemma {:induction false} NothingInSegment(p: Plan, identifiers: seq<LocalIdentifier>, chunks: seq<UnitChunk>, kind: SegmentType)
    requires NothingLocal(identifiers)
    ensures var after := PlanSegment(p, identifiers, chunks, kind); after.log == p.log && after.lost == p.lost && after.exited == p.exited
    decreases |chunks|
  {
    hide NothingLocal, ChunkRun, Refuses;
    if !(|chunks| == 0 || p.exited) && !Refuses(p, chunks[0]) {
      var q := Loaded(p, chunks[0], kind);
      NothingRun(q.code, q.data, q.loads, identifiers, chunks[0].id, kind, |Pick(p.code, p.data, kind)|);
      NothingInSegment(PlanChunk(p, identifiers, chunks[0], kind), identifiers, chunks[1..], kind);
    }
  }

  /** Units without local points write nothing locally, and lose nothing. */
  lemma {:induction false} NothingWritten(p: Plan, units: seq<CompileUnit>)
    requires AllImported(units)
    ensures var after := PlanUnits(p, units); after.log == p.log && after.lost == p.lost && after.exited == p.exited
    decreases |units|
  {
    hide PlanSegment, NothingLocal;
    if !(|units| == 0 || p.exited) {
      var unit := units[0];
      NothingInSegment(p, unit.identifiers, unit.code, Code);
      NothingInSegment(PlanSegment(p, unit.identifiers, unit.code, Code), unit.identifiers, unit.data, Data);
      NothingWritten(PlanUnit(p, unit), units[1..]);
    }
  }

  /** Load addresses once given stay, and a chunk is refused only if it came with one. */
  lemma {:induction false} SegmentGiven(p: Plan, identifiers: seq<LocalIdentifier>, chunks: seq<UnitChunk>, kind: SegmentType)
    requires DistinctIds(chunks)
    ensures var after := PlanSegment(p, identifiers, chunks, kind);
            && (forall id :: id in p.loads ==> id in after.loads && after.loads[id] == p.loads[id])
            && after.loads.Keys <= p.loads.Keys + Ids(chunks)
            && (after.refused && !p.refused ==> exists id :: id in Ids(chunks) && id in p.loads)
    decreases |chunks|
  {
    hide RunOf, Ids, End;
    if !(|chunks| == 0 || p.exited) {
      IdsFront(chunks);
      if !Refuses(p, chunks[0]) {
        FirstIsNew(chunks);
        var next := PlanChunk(p, identifiers, chunks[0], kind);
        assert next.loads.Keys == p.loads.Keys + {chunks[0].id} && next.refused == p.refused;
        hide PlanChunk, Refuses;
        SegmentGiven(next, identifiers, chunks[1..], kind);
      }
    }
  }

  lemma FirstIsNew(chunks: seq<UnitChunk>)
    requires DistinctIds(chunks) && |chunks| > 0
    ensures chunks[0].id !in Ids(chunks[1..]) && DistinctIds(chunks[1..])
  {
    forall c | c in chunks[1..] ensures c.id != chunks[0].id {
      var i :| 0 <= i < |chunks| - 1 && chunks[1..][i] == c;
      assert chunks[i + 1] == c;
    }
  }

  /** What a merge does to the load addresses, and when it refuses a chunk. */
  ghost predicate Given(before: Plan, after: Plan, ids: set<nat>)
  {
    && (forall id :: id in before.loads ==> id in after.loads && after.loads[id] == before.loads[id])
    && after.loads.Keys <= before.loads.Keys + ids
    && (after.refused && !before.refused ==> exists id :: id in ids && id in before.loads)
  }

  lemma GivenThen(a: Plan, b: Plan, c: Plan, first: set<nat>, second: set<nat>)
    requires Given(a, b, first) && Given(b, c, second) && first !! second
    ensures Given(a, c, first + second)
  {
    if c.refused && !a.refused {
      if b.refused {
        var id :| id in first && id in a.loads;
        assert id in first + second;
      } else {
        var id :| id in second && id in b.loads;
        assert id in first + second && id in a.loads;
      }
    }
  }

  lemma UnitGiven(p: Plan, unit: CompileUnit)
    requires SoundUnit(unit)
    ensures Given(p, PlanUnit(p, unit), UnitIds(unit))
  {
    hide PlanSegment, SoundChunks, SizedPoints;
    var mid := PlanSegment(p, unit.identifiers, unit.code, Code);
    SegmentGiven(p, unit.identifiers, unit.code, Code);
    SegmentGiven(mid, unit.identifiers, unit.data, Data);
    GivenThen(p, mid, PlanUnit(p, unit), Ids(unit.code), Ids(unit.data));
  }

  /** Over a whole link: addresses that were given stay, and a chunk is refused only if some chunk came with one. */
  lemma {:induction false} RefusedWasGiven(given: map<nat, nat>, units: seq<CompileUnit>, n: nat)
    requires SoundUnits(units) && n <= |units|
    ensures Given(Start(given), PlanUnits(Start(given), units[..n]), IdsOf(units[..n]))
    decreases n
  {
    hide SoundUnit, PlanUnit, UnitIds, Given, PlanUnits;
    var start := Start(given);
    if n == 0 {
      UnitsEnd(start, units[..0]);
      GivenSame(start, {});
    } else {
      var before := PlanUnits(start, units[..n - 1]);
      RefusedWasGiven(given, units, n - 1);
      UnitsNext(start, units, n - 1);
      UnitGiven(before, units[n - 1]);
      GivenSame(before, UnitIds(units[n - 1]));
      GivenThen(start, before, PlanUnits(start, units[..n]), IdsOf(units[..n - 1]), UnitIds(units[n - 1]));
      NextUnit(units, n - 1);
    }
  }

  lemma GivenSame(p: Plan, ids: set<nat>)
    ensures Given(p, p, ids)
  {
  }

  /** cmp.b d0, 0x33 and beq.b back to it, then brk: the branch byte is the ninth. */
  const Back := CompileUnit([UnitChunk(0, [0x90, 0x00, 0x03, 0x01, 0x33, 0xd0, 0x00, 0x01, 0x00, 0x00])], [],
                            [LocalIdentifier("label", Identifier(0, 0), 0, [ResolvePoint(Code, 0, 1, true, 8)])], [])

  lemma BackBranch()
    ensures var plan := PlanUnits(Start(map[]), [Back]);
            && !Failed(plan) && 0 in plan.places
            && Local(plan.places[0], plan.log) == [0x90, 0x00, 0x03, 0x01, 0x33, 0xd0, 0x00, 0x01, 0xf7, 0x00]
  {
    hide ChunkRun, Applied;
    var p, c := Start(map[]), Back.code[0];
    var q := Loaded(p, c, Code);
    BackRun(q.code, q.loads);
    BackBytes();
    var mid := PlanChunk(p, Back.identifiers, c, Code);
    assert mid.log == [Write(Code, 0, 8, 1, 0xffff_ffff_ffff_fff7)] && !Failed(mid);
    OneStep(p, Back, mid);
  }

  lemma OneStep(p: Plan, unit: CompileUnit, mid: Plan)
    requires |unit.code| == 1 && unit.data == [] && !p.exited && !mid.exited
    requires !Refuses(p, unit.code[0]) && mid == PlanChunk(p, unit.identifiers, unit.code[0], Code)
    ensures PlanUnits(p, [unit]) == mid
  {
    hide PlanChunk, Refuses;
    SegmentStep(p, unit.identifiers, unit.code, Code, 0);
    assert unit.code[0..] == unit.code && unit.code[1..] == [] && [unit][1..] == [];
  }

  lemma BackRun(code: seq<Chunk>, loads: map<nat, nat>)
    requires code == [Chunk(0, Back.code[0].bytes)]
    ensures ChunkRun(code, [], loads, Back.identifiers, 0, Code, 0)
         == LocalRun(Linked, [Write(Code, 0, 8, 1, 0xffff_ffff_ffff_fff7)])
  {
    var l := Back.identifiers[0];
    assert l.points[1..] == [] && Back.identifiers[1..] == [];
    assert LabelRun(code, [], loads, l, l.points, Code, 0) == LocalRun(Linked, [Write(Code, 0, 8, 1, 0xffff_ffff_ffff_fff7)]);
  }

  lemma BackBytes()
    ensures Applied(Back.code[0].bytes, [Write(Code, 0, 8, 1, 0xffff_ffff_ffff_fff7)], Code, 0)
         == [0x90, 0x00, 0x03, 0x01, 0x33, 0xd0, 0x00, 0x01, 0xf7, 0x00]
  {
    assert BigEndian(0xffff_ffff_ffff_fff7, 1) == [0xf7];
    assert [Write(Code, 0, 8, 1, 0xffff_ffff_ffff_fff7)][..0] == [];
  }

  /** One chunk of eight bytes that is to load at 4, with a label at its second byte and a point at its first. */
  const Moved := CompileUnit([UnitChunk(0, [0, 0, 0, 0, 0, 0, 0, 0])], [],
                             [LocalIdentifier("start", Identifier(0, 1), 1, [ResolvePoint(Code, 0, 1, false, 0)])], [])

  /** The address 5 of the label goes to byte 4 of the chunk instead of byte 0. */
  lemma MovedPoint()
    ensures var plan := PlanUnits(Start(map[0 := 4]), [Moved]);
            && !Failed(plan) && 0 in plan.places && Local(plan.places[0], plan.log) == [0, 0, 0, 0, 5, 0, 0, 0]
  {
    var p, c := Start(map[0 := 4]), Moved.code[0];
    var q, l := Loaded(p, c, Code), Moved.identifiers[0];
    MovedRun(q.code);
    assert Moved.code[1..] == [] && [Moved][1..] == [];
    var mid := PlanChunk(p, Moved.identifiers, c, Code);
    assert PlanSegment(p, Moved.identifiers, Moved.code, Code) == mid;
    assert PlanUnit(p, Moved) == mid;
    MovedBytes();
    assert mid.log == [Write(Code, 0, 4, 1, 5)];
  }

  lemma MovedRun(code: seq<Chunk>)
    requires code == [Chunk(4, Moved.code[0].bytes)]
    ensures ChunkRun(code, [], map[0 := 4], Moved.identifiers, 0, Code, 0) == LocalRun(Linked, [Write(Code, 0, 4, 1, 5)])
  {
    var l := Moved.identifiers[0];
    assert FindFrom(code, 4, 0) == Some(0);
    assert l.points[1..] == [] && Moved.identifiers[1..] == [];
    assert LabelRun(code, [], map[0 := 4], l, l.points, Code, 0) == LocalRun(Linked, [Write(Code, 0, 4, 1, 5)]);
  }

  lemma MovedBytes()
    ensures Applied([0, 0, 0, 0, 0, 0, 0, 0], [Write(Code, 0, 4, 1, 5)], Code, 0) == [0, 0, 0, 0, 5, 0, 0, 0]
  {
    assert BigEndian(5, 1) == [5];
    assert [Write(Code, 0, 4, 1, 5)][..0] == [];
  }
}
