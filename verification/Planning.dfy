/**
 What a merge comes to, as a function of the units and of the addresses that were given: where
 every chunk goes, what local relocation writes into it, and how it ends.
 */
module Planning {
  import opened Basics
  import opened Layout
  import opened Numbers
  import opened Merging
  import opened Units

  /** How the relocation of a chunk ends; Exited stands for the end of the program. */
  datatype Relocation = Linked | Unlinked | Exited

  /** The merged chunks as the units had them, their addresses and places, and the local writes so far. */
  datatype Plan = Plan(code: seq<Chunk>, data: seq<Chunk>, loads: map<nat, nat>, places: map<nat, Place>, log: seq<Write>,
                       refused: bool, lost: bool, exited: bool)

  /** The local points of a chunk up to the first that fails: how it ended, and what was written. */
  datatype LocalRun = LocalRun(res: Relocation, writes: seq<Write>)

  /** Where an absolute point is patched: at its address, taken as an offset into the chunk that is found there. */
  function LocalAddress(loads: map<nat, nat>, p: ResolvePoint): nat
  {
    p.placeholder + LoadOf(loads, p.chunk)
  }

  /** The distance back to a label, as the unsigned 64-bit number that is written. */
  function Distance(identifier: LocalIdentifier, p: ResolvePoint): nat
  {
    (identifier.absoluteAddress - p.placeholder - 1) % 0x1_0000_0000_0000_0000
  }

  /** How the patch of one point ends; k is the chunk being merged. */
  function PointOutcome(code: seq<Chunk>, data: seq<Chunk>, loads: map<nat, nat>, p: ResolvePoint, kind: SegmentType, k: nat): Relocation
    requires k < |Pick(code, data, kind)|
  {
    if p.isRelative then
      var chunk := Pick(code, data, kind)[k];
      if p.placeholder + chunk.load + p.opSize <= |chunk.data| then Linked else Unlinked
    else
      var chunks := Pick(code, data, p.segment);
      match Find(chunks, LocalAddress(loads, p))
      case None => Exited
      case Some(i) => if i < |chunks| && LocalAddress(loads, p) + p.opSize <= |chunks[i].data| then Linked else Unlinked
  }

  /** What it writes, if it succeeds. */
  function PointWrite(code: seq<Chunk>, data: seq<Chunk>, loads: map<nat, nat>, identifier: LocalIdentifier, p: ResolvePoint,
                      kind: SegmentType, k: nat): Write
    requires k < |Pick(code, data, kind)|
  {
    if p.isRelative then
      Write(kind, k, p.placeholder + Pick(code, data, kind)[k].load, p.opSize, Distance(identifier, p))
    else
      var i := match Find(Pick(code, data, p.segment), LocalAddress(loads, p)) case None => 0 case Some(i) => i;
      Write(p.segment, i, LocalAddress(loads, p), p.opSize,
            identifier.symbol.relativeAddress + LoadOf(loads, identifier.symbol.chunk))
  }

  function LabelRun(code: seq<Chunk>, data: seq<Chunk>, loads: map<nat, nat>, identifier: LocalIdentifier, points: seq<ResolvePoint>,
                    kind: SegmentType, k: nat): LocalRun
    requires k < |Pick(code, data, kind)|
  {
    if |points| == 0 then LocalRun(Linked, [])
    else
      match PointOutcome(code, data, loads, points[0], kind, k)
      case Linked => After([PointWrite(code, data, loads, identifier, points[0], kind, k)],
                           LabelRun(code, data, loads, identifier, points[1..], kind, k))
      case res => LocalRun(res, [])
  }

  function ChunkRun(code: seq<Chunk>, data: seq<Chunk>, loads: map<nat, nat>, identifiers: seq<LocalIdentifier>, id: nat,
                    kind: SegmentType, k: nat): LocalRun
    requires k < |Pick(code, data, kind)|
  {
    if |identifiers| == 0 then LocalRun(Linked, [])
    else if identifiers[0].symbol.chunk != id then ChunkRun(code, data, loads, identifiers[1..], id, kind, k)
    else
      var first := LabelRun(code, data, loads, identifiers[0], identifiers[0].points, kind, k);
      if first.res.Linked? then After(first.writes, ChunkRun(code, data, loads, identifiers[1..], id, kind, k)) else first
  }

  function After(writes: seq<Write>, run: LocalRun): LocalRun
  {
    LocalRun(run.res, writes + run.writes)
  }

  lemma AfterEnds(writes: seq<Write>, run: LocalRun)
    ensures After(writes, run).res == run.res && After(writes, run).writes == writes + run.writes
    ensures run.writes == [] ==> After(writes, run).writes == writes
  {
  }

  lemma AfterAfter(a: seq<Write>, b: seq<Write>, run: LocalRun)
    ensures After(a, After(b, run)) == After(a + b, run) && After([], run) == run
  {
    assert a + (b + run.writes) == (a + b) + run.writes;
    assert [] + run.writes == run.writes;
  }

  /** One point on: the run of the points from j on. */
  lemma LabelStep(code: seq<Chunk>, data: seq<Chunk>, loads: map<nat, nat>, identifier: LocalIdentifier, points: seq<ResolvePoint>,
                  kind: SegmentType, k: nat, j: nat)
    requires k < |Pick(code, data, kind)| && j < |points|
    ensures LabelRun(code, data, loads, identifier, points[j..], kind, k) ==
            var res := PointOutcome(code, data, loads, points[j], kind, k);
            if res.Linked? then After([PointWrite(code, data, loads, identifier, points[j], kind, k)],
                                      LabelRun(code, data, loads, identifier, points[j + 1..], kind, k))
            else LocalRun(res, [])
  {
    assert points[j..][1..] == points[j + 1..];
  }

  lemma ChunkStep(code: seq<Chunk>, data: seq<Chunk>, loads: map<nat, nat>, identifiers: seq<LocalIdentifier>, id: nat,
                  kind: SegmentType, k: nat, i: nat)
    requires k < |Pick(code, data, kind)| && i < |identifiers|
    ensures ChunkRun(code, data, loads, identifiers[i..], id, kind, k) ==
            var rest := ChunkRun(code, data, loads, identifiers[i + 1..], id, kind, k);
            var first := LabelRun(code, data, loads, identifiers[i], identifiers[i].points, kind, k);
            if identifiers[i].symbol.chunk != id then rest else if first.res.Linked? then After(first.writes, rest) else first
  {
    assert identifiers[i..][1..] == identifiers[i + 1..];
  }

  lemma NoPointsLeft(code: seq<Chunk>, data: seq<Chunk>, loads: map<nat, nat>, identifier: LocalIdentifier, points: seq<ResolvePoint>,
                     kind: SegmentType, k: nat)
    requires k < |Pick(code, data, kind)|
    ensures LabelRun(code, data, loads, identifier, points[|points|..], kind, k) == LocalRun(Linked, [])
  {
  }

  lemma NoMore(code: seq<Chunk>, data: seq<Chunk>, loads: map<nat, nat>, identifiers: seq<LocalIdentifier>, id: nat,
               kind: SegmentType, k: nat)
    requires k < |Pick(code, data, kind)|
    ensures ChunkRun(code, data, loads, identifiers[|identifiers|..], id, kind, k) == LocalRun(Linked, [])
  {
  }

  /** A chunk with an address below the end of what is there is refused. */
  predicate Refuses(p: Plan, c: UnitChunk)
  {
    c.id in p.loads && p.loads[c.id] < End(p.code) + End(p.data)
  }

  function LoadFor(p: Plan, c: UnitChunk): nat
  {
    if c.id in p.loads then p.loads[c.id] else End(p.code) + End(p.data)
  }

  /** The chunk is in its place, before its local points are relocated. */
  function Loaded(p: Plan, c: UnitChunk, kind: SegmentType): (r: Plan)
    ensures |Pick(r.code, r.data, kind)| == |Pick(p.code, p.data, kind)| + 1
  {
    var full := Chunk(LoadFor(p, c), c.bytes);
    p.(code := With(p.code, kind.Code?, full), data := With(p.data, kind.Data?, full), loads := p.loads[c.id := LoadFor(p, c)],
       places := p.places[c.id := Place(kind, |Pick(p.code, p.data, kind)|, c.bytes)])
  }

  function RunOf(p: Plan, identifiers: seq<LocalIdentifier>, c: UnitChunk, kind: SegmentType): LocalRun
  {
    var q := Loaded(p, c, kind);
    ChunkRun(q.code, q.data, q.loads, identifiers, c.id, kind, |Pick(p.code, p.data, kind)|)
  }

  function PlanChunk(p: Plan, identifiers: seq<LocalIdentifier>, c: UnitChunk, kind: SegmentType): Plan
  {
    var run := RunOf(p, identifiers, c, kind);
    Loaded(p, c, kind).(log := p.log + run.writes, lost := p.lost || !run.res.Linked?, exited := p.exited || run.res.Exited?)
  }

  /** The chunks of one segment of a unit, up to the first that is refused. */
  function PlanSegment(p: Plan, identifiers: seq<LocalIdentifier>, chunks: seq<UnitChunk>, kind: SegmentType): Plan
    decreases |chunks|
  {
    if |chunks| == 0 || p.exited then p
    else if Refuses(p, chunks[0]) then p.(refused := true)
    else PlanSegment(PlanChunk(p, identifiers, chunks[0], kind), identifiers, chunks[1..], kind)
  }

  function PlanUnit(p: Plan, unit: CompileUnit): Plan
  {
    PlanSegment(PlanSegment(p, unit.identifiers, unit.code, Code), unit.identifiers, unit.data, Data)
  }

  function PlanUnits(p: Plan, units: seq<CompileUnit>): Plan
    decreases |units|
  {
    if |units| == 0 || p.exited then p else PlanUnits(PlanUnit(p, units[0]), units[1..])
  }

  /** A linker that has merged nothing yet, with the addresses that were given. */
  function Start(given: map<nat, nat>): Plan
  {
    Plan([], [], given, map[], [], false, false, false)
  }

  /** Something of the units is not in the image, or its imports are not. */
  predicate Failed(p: Plan)
  {
    p.refused || p.lost || p.exited
  }

  lemma SegmentStep(p: Plan, identifiers: seq<LocalIdentifier>, chunks: seq<UnitChunk>, kind: SegmentType, n: nat)
    requires n < |chunks| && !p.exited
    ensures PlanSegment(p, identifiers, chunks[n..], kind) ==
            if Refuses(p, chunks[n]) then p.(refused := true)
            else PlanSegment(PlanChunk(p, identifiers, chunks[n], kind), identifiers, chunks[n + 1..], kind)
  {
    hide Refuses, PlanChunk;
    assert chunks[n..][1..] == chunks[n + 1..];
  }

  lemma StopsHere(p: Plan, identifiers: seq<LocalIdentifier>, chunks: seq<UnitChunk>, kind: SegmentType)
    requires |chunks| == 0 || p.exited
    ensures PlanSegment(p, identifiers, chunks, kind) == p
  {
  }

  lemma UnitStep(p: Plan, units: seq<CompileUnit>, u: nat)
    requires u < |units| && !p.exited
    ensures PlanUnits(p, units[u..]) == PlanUnits(PlanUnit(p, units[u]), units[u + 1..])
  {
    hide PlanUnit;
    assert units[u..][1..] == units[u + 1..];
  }

  lemma UnitsEnd(p: Plan, units: seq<CompileUnit>)
    requires |units| == 0 || p.exited
    ensures PlanUnits(p, units) == p
  {
  }

  lemma {:induction false} SegmentFails(p: Plan, identifiers: seq<LocalIdentifier>, chunks: seq<UnitChunk>, kind: SegmentType)
    ensures var after := PlanSegment(p, identifiers, chunks, kind);
            (p.refused ==> after.refused) && (p.lost ==> after.lost) && (p.exited ==> after.exited)
    decreases |chunks|
  {
    hide RunOf, Refuses;
    if !(|chunks| == 0 || p.exited) && !Refuses(p, chunks[0]) {
      SegmentFails(PlanChunk(p, identifiers, chunks[0], kind), identifiers, chunks[1..], kind);
    }
  }

  lemma StaysFailed(p: Plan, unit: CompileUnit)
    ensures Failed(p) ==> Failed(PlanUnit(p, unit))
  {
    hide PlanSegment;
    SegmentFails(p, unit.identifiers, unit.code, Code);
    SegmentFails(PlanSegment(p, unit.identifiers, unit.code, Code), unit.identifiers, unit.data, Data);
  }

  lemma SameWith(p: Plan, code: seq<Chunk>, data: seq<Chunk>, c: UnitChunk, kind: SegmentType)
    requires SameLayout(p.code, code) && SameLayout(p.data, data)
    ensures var q := Loaded(p, c, kind); var full := Chunk(LoadFor(p, c), c.bytes);
            && SameLayout(q.code, With(code, kind.Code?, full)) && SameLayout(q.data, With(data, kind.Data?, full))
            && |Pick(code, data, kind)| == |Pick(p.code, p.data, kind)|
  {
  }

  lemma FullLoad(p: Plan, c: UnitChunk, kind: SegmentType, chunks: seq<Chunk>)
    requires var q := Loaded(p, c, kind); SameLayout(Pick(q.code, q.data, kind), chunks)
    ensures var k := |Pick(p.code, p.data, kind)|; k < |chunks| && chunks[k].load == LoadFor(p, c)
  {
  }

  lemma RefusedEnd(code: seq<Chunk>, data: seq<Chunk>, p: Plan, c: UnitChunk)
    requires SameLayout(p.code, code) && SameLayout(p.data, data) && Refuses(p, c)
    ensures c.id in p.loads && p.loads[c.id] < End(code) + End(data)
  {
    SameEnd(p.code, code);
    SameEnd(p.data, data);
  }

  lemma {:induction false} SameFound(a: seq<Chunk>, b: seq<Chunk>, address: nat, i: nat)
    requires SameLayout(a, b) && i <= |a|
    ensures FindFrom(a, address, i) == FindFrom(b, address, i)
    ensures FindFrom(a, address, i).Some? ==> FindFrom(a, address, i).value < |a|
    decreases |a| - i
  {
    if i < |a| {
      SameFound(a, b, address, i + 1);
    }
  }

  /** How a point ends, and what it writes, depends on the layout alone, not on what was patched before. */
  lemma SameOutcome(code: seq<Chunk>, data: seq<Chunk>, code': seq<Chunk>, data': seq<Chunk>, loads: map<nat, nat>,
                    identifier: LocalIdentifier, p: ResolvePoint, kind: SegmentType, k: nat)
    requires SameLayout(code, code') && SameLayout(data, data') && k < |Pick(code, data, kind)|
    ensures k < |Pick(code', data', kind)|
    ensures PointOutcome(code, data, loads, p, kind, k) == PointOutcome(code', data', loads, p, kind, k)
    ensures PointWrite(code, data, loads, identifier, p, kind, k) == PointWrite(code', data', loads, identifier, p, kind, k)
  {
    SameFound(Pick(code, data, p.segment), Pick(code', data', p.segment), LocalAddress(loads, p), 0);
  }
}
