/** The linker: the context that merges the units' chunks into its segments and patches their symbols. */
module LinkerModel {
  import opened Basics
  import opened Layout
  import opened Merging
  import opened Units
  import opened Planning
  import opened Resolving
  import opened Image
  import opened SegmentModel

  class Context {
    const code: Segment
    const data: Segment
    var activeSegment: SegmentType
    var exportIdentifiers: seq<Export>
    // The load addresses of the units' chunks. A chunk without one is appended.
    var loads: map<nat, nat>
    // Where the copies are, and what local relocation has written into them.
    ghost var places: map<nat, Place>
    ghost var log: seq<Write>

    ghost predicate Valid()
      reads this, code, data
    {
      && code != data
      && Merged(code.chunks, data.chunks, loads, places, exportIdentifiers, log)
    }

    /** The state is as the plan says, but for what the exports put into the bytes. */
    ghost predicate Follows(p: Plan)
      reads this, code, data
    {
      SameLayout(p.code, code.chunks) && SameLayout(p.data, data.chunks) && loads == p.loads && places == p.places && log == p.log
    }

    constructor (known: seq<Export>, addresses: map<nat, nat>)
      requires UniqueNames(known) && References(known) == {}
      ensures Valid() && fresh(code) && fresh(data) && places == map[] && code.chunks == data.chunks == []
      ensures exportIdentifiers == known && loads == addresses && Follows(Start(addresses))
    {
      code := new Segment();
      data := new Segment();
      activeSegment := Code;
      exportIdentifiers, loads, places, log := known, addresses, map[], [];
      NothingMerged(addresses, known);
    }

    function GetSegment(kind: SegmentType): Segment
    {
      Pick(code, data, kind)
    }

    function LoadAddress(id: nat): nat
      reads this
    {
      LoadOf(loads, id)
    }

    /** The next address to append at: the ends of both segments, added up. */
    method ComputeEndAddress() returns (endAddress: nat)
      ensures endAddress == End(code.chunks) + End(data.chunks)
    {
      endAddress := code.EndAddress();
      var dataEnd := data.EndAddress();
      endAddress := endAddress + dataEnd;
    }

    /** The points of one import that lie in this chunk join the export of that name. */
    method RegisterPoints(imported: Import, id: nat, dstLoad: nat)
      requires UniqueNames(exportIdentifiers) && LoadAddress(id) == dstLoad
      modifies this`exportIdentifiers
      ensures Joined(old(exportIdentifiers), exportIdentifiers)
      ensures References(exportIdentifiers) == old(References(exportIdentifiers)) + WantedPoints(imported.name, imported.points, id)
      ensures Names(exportIdentifiers) == old(Names(exportIdentifiers)) + {imported.name}
    {
      hide References, UniqueNames, Joined, WantedPoints, Names;
      var name, points := imported.name, imported.points;
      ghost var before := exportIdentifiers;
      JoinedSelf(before);
      NoneWanted(name, id);
      DeclaredJoins(before, before, name);
      exportIdentifiers := Declared(exportIdentifiers, name);
      for j := 0 to |points|
        invariant Joined(before, exportIdentifiers)
        invariant References(exportIdentifiers) == References(before) + WantedPoints(name, points[..j], id)
        invariant Names(exportIdentifiers) == Names(before) + {name}
      {
        var p := points[j];
        WantedStep(name, points, j, id);
        if p.isRelative { continue; }
        if p.chunk != id { continue; }
        var delta := dstLoad as int - LoadAddress(id);
        var newPoint := p.(placeholder := p.placeholder + delta);
        JoinedNames(before, exportIdentifiers);
        AddPointRefers(exportIdentifiers, name, newPoint);
        AddPointJoins(before, exportIdentifiers, name, newPoint);
        exportIdentifiers := AddPoint(exportIdentifiers, name, newPoint);
      }
      assert points[..|points|] == points;
    }

    /** The imports that wait in this chunk join the exports they wait for. */
    method RegisterImports(imports: seq<Import>, id: nat, dstLoad: nat)
      requires UniqueNames(exportIdentifiers) && LoadAddress(id) == dstLoad
      modifies this`exportIdentifiers
      ensures Joined(old(exportIdentifiers), exportIdentifiers)
      ensures References(exportIdentifiers) == old(References(exportIdentifiers)) + Wanted(imports, id)
      ensures Names(exportIdentifiers) == old(Names(exportIdentifiers)) + ImportNames(imports)
    {
      hide References, UniqueNames, Joined, WantedPoints, Names, Wanted, ImportNames;
      ghost var before := exportIdentifiers;
      JoinedSelf(before);
      NoImports(id);
      for i := 0 to |imports|
        invariant Joined(before, exportIdentifiers)
        invariant References(exportIdentifiers) == References(before) + Wanted(imports[..i], id)
        invariant Names(exportIdentifiers) == Names(before) + ImportNames(imports[..i])
      {
        ghost var mid := exportIdentifiers;
        JoinedNames(before, mid);
        RegisterPoints(imports[i], id, dstLoad);
        WantedImport(imports, i, id);
        JoinedThen(before, mid, exportIdentifiers);
      }
      assert imports[..|imports|] == imports;
    }

    /** A new chunk behind everything else goes to the end of the active segment. */
    method CreateChunk(load: nat)
      requires code != data && Laid(code.chunks, data.chunks) && End(code.chunks) <= load && End(data.chunks) <= load
      modifies code, data
      ensures code.chunks == With(old(code.chunks), activeSegment.Code?, Chunk(load, []))
      ensures data.chunks == With(old(data.chunks), activeSegment.Data?, Chunk(load, []))
      ensures GetSegment(activeSegment).currentChunk + 1 == |GetSegment(activeSegment).chunks|
    {
      hide Laid, End;
      LaidNext(code.chunks, data.chunks, activeSegment, Chunk(load, []));
      ghost var grown := Pick(code.chunks, data.chunks, activeSegment) + [Chunk(load, [])];
      var segment := GetSegment(activeSegment);
      segment.CreateChunk(load);
      assert segment.chunks == grown && grown[|grown| - 1].load == load;
    }

    /** A number goes into chunk k of a segment, and the write is recorded. */
    method Patch(kind: SegmentType, k: nat, offset: nat, value: nat, opSize: nat) returns (ok: bool)
      requires Valid() && k < |GetSegment(kind).chunks| && OperandSize(opSize)
      modifies this`log, code`chunks, data`chunks
      ensures Valid()
      ensures ok <==> offset + opSize <= |old(GetSegment(kind).chunks)[k].data|
      ensures log == old(log) + if ok then [Write(kind, k, offset, opSize, value)] else []
      ensures ok ==> code.chunks == PatchedChunk(old(code.chunks), kind.Code?, k, offset, value, opSize)
      ensures ok ==> data.chunks == PatchedChunk(old(data.chunks), kind.Data?, k, offset, value, opSize)
      ensures !ok ==> code.chunks == old(code.chunks) && data.chunks == old(data.chunks)
    {
      hide Merged, Patched, OperandSize;
      if offset + opSize <= |GetSegment(kind).chunks[k].data| {
        ghost var write := Write(kind, k, offset, opSize, value);
        LocalPatched(code.chunks, data.chunks, loads, places, exportIdentifiers, log, write);
        log := log + [write];
      }
      ok := GetSegment(kind).ReplaceAt(k, offset, value, opSize);
    }

    /** An absolute point gets the address of the label, at its own address taken as an offset into the chunk found there. */
    method RelocateAbsolute(p: ResolvePoint, symbol: Identifier) returns (res: Relocation)
      requires Valid() && OperandSize(p.opSize) && !p.isRelative
      modifies this`log, code`chunks, data`chunks
      ensures Valid()
      ensures var at := p.placeholder + LoadAddress(p.chunk);
              var chunks := Pick(old(code.chunks), old(data.chunks), p.segment);
              var found, value := Find(chunks, at), symbol.relativeAddress + LoadAddress(symbol.chunk);
              match res
              case Exited => found == None
              case Unlinked => found.Some? && found.value < |chunks| && at + p.opSize > |chunks[found.value].data|
              case Linked =>
                && found.Some? && found.value < |chunks| && at + p.opSize <= |chunks[found.value].data|
                && log == old(log) + [Write(p.segment, found.value, at, p.opSize, value)]
                && code.chunks == PatchedChunk(old(code.chunks), p.segment.Code?, found.value, at, value, p.opSize)
                && data.chunks == PatchedChunk(old(data.chunks), p.segment.Data?, found.value, at, value, p.opSize)
      ensures !res.Linked? ==> code.chunks == old(code.chunks) && data.chunks == old(data.chunks) && log == old(log)
    {
      hide Merged, FindFrom, Patched, OperandSize;
      var targetSegment := GetSegment(p.segment);
      SameFound(targetSegment.chunks, targetSegment.chunks, LocalAddress(loads, p), 0);
      var targetChunk := targetSegment.ChunkFromAddress(LocalAddress(loads, p));
      if targetChunk == None { return Exited; }
      var value := symbol.relativeAddress + LoadAddress(symbol.chunk);
      var ok := Patch(p.segment, targetChunk.value, LocalAddress(loads, p), value, p.opSize);
      return if ok then Linked else Unlinked;
    }

    /** A relative point gets the distance to the label, in the chunk being merged, moved by its load address. */
    method RelocateRelative(p: ResolvePoint, identifier: LocalIdentifier) returns (ok: bool)
      requires Valid() && OperandSize(p.opSize) && p.isRelative
      requires GetSegment(activeSegment).currentChunk < |GetSegment(activeSegment).chunks|
      modifies this`log, code`chunks, data`chunks
      ensures Valid()
      ensures var k := old(GetSegment(activeSegment).currentChunk);
              var chunk := Pick(old(code.chunks), old(data.chunks), activeSegment)[k];
              var offset := p.placeholder + chunk.load;
              var distance := (identifier.absoluteAddress - p.placeholder - 1) % 0x1_0000_0000_0000_0000;
              && (ok <==> offset + p.opSize <= |chunk.data|)
              && log == old(log) + (if ok then [Write(activeSegment, k, offset, p.opSize, distance)] else [])
              && (ok ==> code.chunks == PatchedChunk(old(code.chunks), activeSegment.Code?, k, offset, distance, p.opSize))
              && (ok ==> data.chunks == PatchedChunk(old(data.chunks), activeSegment.Data?, k, offset, distance, p.opSize))
      ensures !ok ==> code.chunks == old(code.chunks) && data.chunks == old(data.chunks)
    {
      hide Merged, Patched, OperandSize;
      var segment := GetSegment(activeSegment);
      var k := segment.currentChunk;
      var offset := p.placeholder + segment.chunks[k].load;
      ok := Patch(activeSegment, k, offset, Distance(identifier, p), p.opSize);
    }

    /** One local point is patched, if a chunk is found and the patch fits into it. */
    method RelocateLocalPoint(p: ResolvePoint, identifier: LocalIdentifier) returns (res: Relocation)
      requires Valid() && OperandSize(p.opSize) && GetSegment(activeSegment).currentChunk < |GetSegment(activeSegment).chunks|
      modifies this`log, code`chunks, data`chunks
      ensures Valid()
      ensures SameLayout(old(code.chunks), code.chunks) && SameLayout(old(data.chunks), data.chunks)
      ensures var k := old(GetSegment(activeSegment).currentChunk);
              && res == PointOutcome(old(code.chunks), old(data.chunks), loads, p, activeSegment, k)
              && log == old(log) + if res.Linked? then [PointWrite(old(code.chunks), old(data.chunks), loads, identifier, p, activeSegment, k)]
                                   else []
      ensures !res.Linked? ==> code.chunks == old(code.chunks) && data.chunks == old(data.chunks)
    {
      hide Merged, Find, Patched, OperandSize;
      SameLayoutSelf(code.chunks);
      SameLayoutSelf(data.chunks);
      if !p.isRelative {
        res := RelocateAbsolute(p, identifier.symbol);
      } else {
        var ok := RelocateRelative(p, identifier);
        res := if ok then Linked else Unlinked;
      }
    }

    /** The local points of all labels in one chunk, until one of them fails. */
    method RelocateLocals(identifiers: seq<LocalIdentifier>, id: nat, ghost codeFirst: seq<Chunk>, ghost dataFirst: seq<Chunk>)
      returns (res: Relocation)
      requires Valid() && SizedPoints(identifiers) && GetSegment(activeSegment).currentChunk < |Pick(codeFirst, dataFirst, activeSegment)|
      requires SameLayout(codeFirst, code.chunks) && SameLayout(dataFirst, data.chunks)
      modifies this`log, code`chunks, data`chunks
      ensures Valid()
      ensures SameLayout(codeFirst, code.chunks) && SameLayout(dataFirst, data.chunks)
      ensures var run := ChunkRun(codeFirst, dataFirst, loads, identifiers, id, activeSegment, GetSegment(activeSegment).currentChunk);
              res == run.res && log == old(log) + run.writes
    {
      hide Merged, SameLayout, OperandSize, LabelRun, ChunkRun, After, SizedPoints;
      ghost var k, done := GetSegment(activeSegment).currentChunk, [];
      assert identifiers[0..] == identifiers;
      AfterAfter([], [], ChunkRun(codeFirst, dataFirst, loads, identifiers, id, activeSegment, k));
      for i := 0 to |identifiers|
        invariant Valid() && k < |Pick(codeFirst, dataFirst, activeSegment)| && log == old(log) + done
        invariant SameLayout(codeFirst, code.chunks) && SameLayout(dataFirst, data.chunks)
        invariant ChunkRun(codeFirst, dataFirst, loads, identifiers, id, activeSegment, k)
               == After(done, ChunkRun(codeFirst, dataFirst, loads, identifiers[i..], id, activeSegment, k))
      {
        var identifier := identifiers[i];
        ChunkStep(codeFirst, dataFirst, loads, identifiers, id, activeSegment, k, i);
        if identifier.symbol.chunk != id { continue; }
        SizedOne(identifiers, i);
        ghost var first := LabelRun(codeFirst, dataFirst, loads, identifier, identifier.points, activeSegment, k);
        AfterAfter(done, first.writes, ChunkRun(codeFirst, dataFirst, loads, identifiers[i + 1..], id, activeSegment, k));
        AfterEnds(done, first);
        res := RelocateIdentifier(identifier, codeFirst, dataFirst);
        done := done + first.writes;
        if !res.Linked? { return; }
      }
      NoMore(codeFirst, dataFirst, loads, identifiers, id, activeSegment, k);
      AfterEnds(done, LocalRun(Linked, []));
      return Linked;
    }

    /** The local points of one label. */
    method RelocateIdentifier(identifier: LocalIdentifier, ghost codeFirst: seq<Chunk>, ghost dataFirst: seq<Chunk>)
      returns (res: Relocation)
      requires Valid() && SizedPoints([identifier]) && GetSegment(activeSegment).currentChunk < |Pick(codeFirst, dataFirst, activeSegment)|
      requires SameLayout(codeFirst, code.chunks) && SameLayout(dataFirst, data.chunks)
      modifies this`log, code`chunks, data`chunks
      ensures Valid()
      ensures SameLayout(codeFirst, code.chunks) && SameLayout(dataFirst, data.chunks)
      ensures var run := LabelRun(codeFirst, dataFirst, loads, identifier, identifier.points, activeSegment,
                                  GetSegment(activeSegment).currentChunk);
              res == run.res && log == old(log) + run.writes
    {
      hide Merged, SameLayout, OperandSize, LabelRun, PointOutcome, PointWrite;
      ghost var k, done := GetSegment(activeSegment).currentChunk, [];
      var points := identifier.points;
      assert points[0..] == points;
      AfterAfter([], [], LabelRun(codeFirst, dataFirst, loads, identifier, points, activeSegment, k));
      for j := 0 to |points|
        invariant Valid() && log == old(log) + done
        invariant SameLayout(codeFirst, code.chunks) && SameLayout(dataFirst, data.chunks)
        invariant LabelRun(codeFirst, dataFirst, loads, identifier, points, activeSegment, k)
               == After(done, LabelRun(codeFirst, dataFirst, loads, identifier, points[j..], activeSegment, k))
      {
        ghost var codeBefore, dataBefore := code.chunks, data.chunks;
        SameOutcome(codeFirst, dataFirst, code.chunks, data.chunks, loads, identifier, points[j], activeSegment, k);
        LabelStep(codeFirst, dataFirst, loads, identifier, points, activeSegment, k, j);
        ghost var write := PointWrite(codeFirst, dataFirst, loads, identifier, points[j], activeSegment, k);
        AfterAfter(done, [write], LabelRun(codeFirst, dataFirst, loads, identifier, points[j + 1..], activeSegment, k));
        assert OperandSize([identifier][0].points[j].opSize);
        res := RelocateLocalPoint(points[j], identifier);
        SameLayoutThen(codeFirst, codeBefore, code.chunks);
        SameLayoutThen(dataFirst, dataBefore, data.chunks);
        if !res.Linked? { return; }
        done := done + [write];
      }
      NoPointsLeft(codeFirst, dataFirst, loads, identifier, points, activeSegment, k);
      return Linked;
    }

    /**
     The fresh chunk at the end of the active segment gets the unit's bytes, its local points are
     patched, and, if that goes well, its imports are taken up.
     */
    method RelocateChunkFromUnit(unit: CompileUnit, c: UnitChunk, ghost codeBefore: seq<Chunk>, ghost dataBefore: seq<Chunk>,
                                 ghost plan: Plan)
      returns (res: Relocation)
      requires SameLayout(plan.code, codeBefore) && SameLayout(plan.data, dataBefore) && places == plan.places && log == plan.log
      requires loads == Loaded(plan, c, activeSegment).loads
      requires code != data && c.id in loads && c.id !in places
      requires Merged(codeBefore, dataBefore, loads, places, exportIdentifiers, log)
      requires End(codeBefore) <= loads[c.id] && End(dataBefore) <= loads[c.id]
      requires SoundChunk(unit.imports, activeSegment, c) && SizedPoints(unit.identifiers)
      requires var empty := Chunk(loads[c.id], []);
               && code.chunks == With(codeBefore, activeSegment.Code?, empty)
               && data.chunks == With(dataBefore, activeSegment.Data?, empty)
               && GetSegment(activeSegment).currentChunk + 1 == |GetSegment(activeSegment).chunks|
      modifies this`exportIdentifiers, this`places, this`log, code`chunks, data`chunks
      ensures Valid() && Joined(old(exportIdentifiers), exportIdentifiers)
      ensures Follows(PlanChunk(plan, unit.identifiers, c, activeSegment))
      ensures res == RunOf(plan, unit.identifiers, c, activeSegment).res
      ensures References(exportIdentifiers)
              == old(References(exportIdentifiers)) + (if res.Linked? then Wanted(unit.imports, c.id) else {})
      ensures Names(exportIdentifiers) == old(Names(exportIdentifiers)) + (if res.Linked? then ImportNames(unit.imports) else {})
    {
      hide Merged, References, UniqueNames, Joined, Wanted, SoundChunk, SoundReferences, SizedPoints, SameLayout, End, With, Names,
           ImportNames, ChunkRun;
      var segment := GetSegment(activeSegment);
      ghost var before, kind, load := places, activeSegment, loads[c.id];
      ghost var index := |Pick(codeBefore, dataBefore, kind)|;
      FreshChunk(codeBefore, dataBefore, kind, load, c.bytes);
      segment.Write(c.bytes);
      places := places[c.id := Place(kind, index, c.bytes)];
      assert loads == loads[c.id := load];
      MergeNext(codeBefore, dataBefore, loads, before, exportIdentifiers, log, kind, c, load);
      MergedFacts(codeBefore, dataBefore, loads, before, exportIdentifiers, log);
      JoinedSelf(exportIdentifiers);
      ghost var full := Loaded(plan, c, kind);
      SameWith(plan, codeBefore, dataBefore, c, kind);
      res := RelocateLocals(unit.identifiers, c.id, full.code, full.data);
      if !res.Linked? { return; }
      FullLoad(plan, c, kind, segment.chunks);
      ghost var exportsBefore := exportIdentifiers;
      RegisterImports(unit.imports, c.id, segment.chunks[segment.currentChunk].load);
      ImportsNext(code.chunks, data.chunks, loads, before, places, exportsBefore, log, unit.imports, kind, c, index, exportIdentifiers);
    }

    /**
     Merges one chunk into the active segment: behind everything when it has no address, at its
     own address otherwise, if that is not below the end of what is there.
     */
    method MergeChunk(unit: CompileUnit, c: UnitChunk, ghost plan: Plan) returns (taken: bool, res: Relocation)
      requires Valid() && SoundChunk(unit.imports, activeSegment, c) && SizedPoints(unit.identifiers) && c.id !in places
      requires Follows(plan)
      modifies this`loads, this`exportIdentifiers, this`places, this`log, code, data
      ensures Valid() && Joined(old(exportIdentifiers), exportIdentifiers)
      ensures Follows(if taken then PlanChunk(plan, unit.identifiers, c, activeSegment) else plan) && (taken <==> !Refuses(plan, c))
      ensures taken ==> res == RunOf(plan, unit.identifiers, c, activeSegment).res
      ensures taken ==> loads == old(loads)[c.id := if c.id in old(loads) then old(loads)[c.id]
                                                    else old(End(code.chunks)) + old(End(data.chunks))]
      ensures taken <==> c.id !in old(loads) || old(loads)[c.id] >= old(End(code.chunks)) + old(End(data.chunks))
      ensures !taken ==> res == Linked && exportIdentifiers == old(exportIdentifiers)
                         && code.chunks == old(code.chunks) && data.chunks == old(data.chunks)
      ensures taken ==> References(exportIdentifiers)
                        == old(References(exportIdentifiers)) + (if res.Linked? then Wanted(unit.imports, c.id) else {})
      ensures taken ==> Names(exportIdentifiers)
                        == old(Names(exportIdentifiers)) + (if res.Linked? then ImportNames(unit.imports) else {})
    {
      hide Merged, References, UniqueNames, Joined, Wanted, SoundChunk, SizedPoints, End, Laid, Placed, SoundReferences, With,
           Names, ImportNames, PlanChunk, RunOf, SameLayout;
      SameEnd(plan.code, code.chunks);
      SameEnd(plan.data, data.chunks);
      MergedFacts(code.chunks, data.chunks, loads, places, exportIdentifiers, log);
      JoinedSelf(exportIdentifiers);
      var endAddress := ComputeEndAddress();
      ghost var codeBefore, dataBefore, loadsBefore := code.chunks, data.chunks, loads;
      if c.id !in loads {
        loads := loads[c.id := endAddress];
      } else if loads[c.id] < endAddress {
        return false, Linked;
      }
      assert loads == loadsBefore[c.id := loads[c.id]] == Loaded(plan, c, activeSegment).loads;
      LoadsMore(codeBefore, dataBefore, loadsBefore, places, exportIdentifiers, log, c.id, loads[c.id]);
      CreateChunk(loads[c.id]);
      res := RelocateChunkFromUnit(unit, c, codeBefore, dataBefore, plan);
      return true, res;
    }

    /**
     Merges the chunks of one segment of a unit, in order, and stops at the first chunk that asks
     for an address below the end of what is there; n is the number of chunks merged. A chunk
     whose relocation fails keeps its place, but its imports are lost.
     */
    method MergeSegmentForUnit(unit: CompileUnit, chunks: seq<UnitChunk>, kind: SegmentType, ghost plan: Plan)
      returns (n: nat, lost: bool, exited: bool)
      requires Follows(plan) && !plan.exited
      requires Valid() && DistinctIds(chunks) && SoundChunks(unit.imports, kind, chunks) && SizedPoints(unit.identifiers)
      requires forall i :: 0 <= i < |chunks| ==> chunks[i].id !in places
      modifies this, code, data
      ensures Valid() && Joined(old(exportIdentifiers), exportIdentifiers)
      ensures var after := PlanSegment(plan, unit.identifiers, chunks, kind);
              Follows(after) && after.refused == (plan.refused || (n < |chunks| && !exited))
              && after.lost == (plan.lost || lost) && after.exited == exited
      ensures n <= |chunks|
      ensures n < |chunks| && !exited ==>
                chunks[n].id in loads && loads[chunks[n].id] < End(code.chunks) + End(data.chunks)
      ensures Took(old(places), places, kind, chunks[..n])
      ensures Gained(old(References(exportIdentifiers)), References(exportIdentifiers), AllWanted(unit.imports, chunks[..n]), lost)
      ensures Gained(old(Names(exportIdentifiers)), Names(exportIdentifiers), NamesFor(unit.imports, chunks[..n]), lost)
    {
      hide Merged, Took, Joined, References, Ids, SoundChunk, End, Wanted, AllWanted, SizedPoints, Gained, Names, ImportNames,
           NamesFor, PlanSegment, RunOf, SameLayout, With;
      activeSegment := kind;
      ghost var now := plan;
      assert chunks[0..] == chunks;
      NamesNone(Names(exportIdentifiers), unit.imports, chunks);
      TookNone(places, kind);
      MergedFacts(code.chunks, data.chunks, loads, places, exportIdentifiers, log);
      JoinedSelf(exportIdentifiers);
      GainedNone(References(exportIdentifiers), unit.imports, chunks);
      n, lost, exited := 0, false, false;
      while n < |chunks|
        invariant n <= |chunks| && activeSegment == kind
        invariant Valid() && Joined(old(exportIdentifiers), exportIdentifiers) && Follows(now)
        invariant PlanSegment(plan, unit.identifiers, chunks, kind) == PlanSegment(now, unit.identifiers, chunks[n..], kind)
        invariant now.refused == plan.refused && now.lost == (plan.lost || lost) && !now.exited
        invariant Took(old(places), places, kind, chunks[..n])
        invariant Gained(old(References(exportIdentifiers)), References(exportIdentifiers), AllWanted(unit.imports, chunks[..n]), lost)
        invariant Gained(old(Names(exportIdentifiers)), Names(exportIdentifiers), NamesFor(unit.imports, chunks[..n]), lost)
      {
        var c := chunks[n];
        ghost var taking, exportsBefore := places, exportIdentifiers;
        NotTaken(old(places), places, kind, chunks, n);
        SegmentStep(now, unit.identifiers, chunks, kind, n);
        var taken, res := MergeChunk(unit, c, now);
        if !taken {
          RefusedEnd(code.chunks, data.chunks, now, c);
          return n, lost, false;
        }
        ghost var index := |Pick(now.code, now.data, kind)|;
        now := PlanChunk(now, unit.identifiers, c, kind);
        TookNext(old(places), taking, kind, chunks, n, index);
        JoinedThen(old(exportIdentifiers), exportsBefore, exportIdentifiers);
        OneGained(References(exportsBefore), Wanted(unit.imports, c.id), !res.Linked?);
        GainedNext(old(References(exportIdentifiers)), References(exportsBefore), unit.imports, chunks, n, lost,
                   References(exportIdentifiers), !res.Linked?);
        OneGained(Names(exportsBefore), ImportNames(unit.imports), !res.Linked?);
        NamesNext(old(Names(exportIdentifiers)), Names(exportsBefore), Names(exportIdentifiers), unit.imports, chunks, n, lost,
                  !res.Linked?);
        n, lost := n + 1, lost || !res.Linked?;
        if res.Exited? {
          StopsHere(now, unit.identifiers, chunks[n..], kind);
          return n, lost, true;
        }
      }
      StopsHere(now, unit.identifiers, chunks[n..], kind);
    }

    ghost predicate Linking(refs: set<Reference>, done: set<Reference>)
      reads this, code, data
    {
      code != data && Resolving.Resolving(code.chunks, data.chunks, loads, places, refs, done, exportIdentifiers, log)
    }

    /** The address of a symbol goes into the chunk in which its placeholder is found. */
    method RelocateExport(name: string, p: ResolvePoint, identAbsAddress: nat, ghost refs: set<Reference>, ghost done: set<Reference>)
      returns (ok: bool)
      requires Linking(refs, done) && Reference(name, p) in refs
      requires identAbsAddress == AddressOf(exportIdentifiers, loads, name)
      modifies code`chunks, data`chunks
      ensures ok && Linking(refs, done + {Reference(name, p)})
      ensures SameLayout(old(code.chunks), code.chunks) && SameLayout(old(data.chunks), data.chunks)
    {
      hide Resolving.Resolving, SameLayout, AddressOf, Find, Patched, OperandSize;
      ghost var r := Reference(name, p);
      ReferenceFound(code.chunks, data.chunks, loads, places, refs, done, exportIdentifiers, log, r);
      ResolvingNext(code.chunks, data.chunks, loads, places, refs, done, exportIdentifiers, log, r);
      if p.isRelative { return false; }
      var resolveAddress := p.placeholder + LoadAddress(p.chunk);
      var targetSegment := GetSegment(p.segment);
      var targetChunk := targetSegment.ChunkFromAddress(resolveAddress);
      if targetChunk == None { return false; }
      ok := targetSegment.ReplaceAt(targetChunk.value, p.placeholder, identAbsAddress, p.opSize);
    }

    /** One export gives its address to all points that wait for it. */
    method RelocatePoints(k: nat, identAbsAddress: nat, ghost refs: set<Reference>) returns (ok: bool)
      requires k < |exportIdentifiers| && refs == References(exportIdentifiers)
      requires identAbsAddress == AddressOf(exportIdentifiers, loads, exportIdentifiers[k].name)
      requires Linking(refs, References(exportIdentifiers[..k]))
      modifies code`chunks, data`chunks
      ensures ok && Linking(refs, References(exportIdentifiers[..k + 1]))
      ensures SameLayout(old(code.chunks), code.chunks) && SameLayout(old(data.chunks), data.chunks)
    {
      hide *;
      var name, points := exportIdentifiers[k].name, exportIdentifiers[k].points;
      ghost var exports, first := exportIdentifiers, References(exportIdentifiers[..k]);
      ghost var codeFirst, dataFirst := code.chunks, data.chunks;
      NoPoints(name);
      assert first + {} == first && points[..0] == [];
      SameLayoutSelf(codeFirst);
      SameLayoutSelf(dataFirst);
      for j := 0 to |points|
        invariant Linking(refs, first + PointsOf(name, points[..j]))
        invariant SameLayout(codeFirst, code.chunks) && SameLayout(dataFirst, data.chunks)
      {
        ghost var codeBefore, dataBefore := code.chunks, data.chunks;
        ReferenceNext(exports, k, j);
        ok := RelocateExport(name, points[j], identAbsAddress, refs, first + PointsOf(name, points[..j]));
        SameLayoutThen(codeFirst, codeBefore, code.chunks);
        SameLayoutThen(dataFirst, dataBefore, data.chunks);
        if !ok { return false; }
      }
      assert points[..|points|] == points;
      ReferencesOfExport(exports, k);
      return true;
    }

    /** Every export gives its address to all points that wait for it, unless its symbol is nowhere defined. */
    method RelocateExports() returns (ok: bool)
      requires Valid()
      modifies code`chunks, data`chunks
      ensures ok <==> AllDefined(exportIdentifiers)
      ensures SameLayout(old(code.chunks), code.chunks) && SameLayout(old(data.chunks), data.chunks)
      ensures ok ==> Linking(References(exportIdentifiers), References(exportIdentifiers))
    {
      hide Resolving.Resolving, SameLayout, AddressOf, References, Merged, UniqueNames;
      ghost var exports, refs := exportIdentifiers, References(exportIdentifiers);
      ghost var codeFirst, dataFirst := code.chunks, data.chunks;
      ResolvingStarts(codeFirst, dataFirst, loads, places, exports, log);
      NoReferences(exports);
      MergedFacts(codeFirst, dataFirst, loads, places, exports, log);
      SameLayoutSelf(codeFirst);
      SameLayoutSelf(dataFirst);
      for k := 0 to |exportIdentifiers|
        invariant Linking(refs, References(exports[..k])) && (forall i :: 0 <= i < k ==> exports[i].orig.Some?)
        invariant SameLayout(codeFirst, code.chunks) && SameLayout(dataFirst, data.chunks)
      {
        var identifier := exportIdentifiers[k];
        if identifier.orig == None { return false; }
        OwnAddress(exports, loads, k);
        ghost var codeBefore, dataBefore := code.chunks, data.chunks;
        ok := RelocatePoints(k, identifier.orig.value.relativeAddress + LoadAddress(identifier.orig.value.chunk), refs);
        SameLayoutThen(codeFirst, codeBefore, code.chunks);
        SameLayoutThen(dataFirst, dataBefore, data.chunks);
        if !ok { return false; }
      }
      assert exports[..|exports|] == exports;
      return true;
    }

    /** Copies the chunks of one segment into the image; the check for an overflow never fires. */
    method CopySegment(image: seq<Byte>, chunks: seq<Chunk>, ghost before: seq<Chunk>) returns (ok: bool, out: seq<Byte>)
      requires AllClear(before + chunks) && Shows(image, before) && Blank(image, before) && End(chunks) <= |image|
      ensures ok && |out| == |image| && Shows(out, before + chunks) && Blank(out, before + chunks)
    {
      hide Shows, Blank, AllClear, Clear;
      out := image;
      assert before + chunks[..0] == before;
      for i := 0 to |chunks|
        invariant |out| == |image| && Shows(out, before + chunks[..i]) && Blank(out, before + chunks[..i])
      {
        var chunk := chunks[i];
        if chunk.load + |chunk.data| > |out| { return false, out; }
        assert before + chunks[..i] + [chunk] == before + chunks[..i + 1];
        ClearPrefix(before + chunks, |before| + i + 1);
        assert (before + chunks)[..|before| + i + 1] == before + chunks[..i + 1];
        CopyNext(out, before + chunks[..i], chunk);
        out := Overlay(out, chunk.load, chunk.data);
      }
      assert before + chunks[..|chunks|] == before + chunks;
      return true, out;
    }

    method FinalMergeOfSegments() returns (ok: bool, out: seq<Byte>)
      requires Laid(code.chunks, data.chunks)
      ensures ok && |out| == End(code.chunks) + End(data.chunks)
      ensures Shows(out, code.chunks + data.chunks) && Blank(out, code.chunks + data.chunks)
    {
      hide *;
      LaidIsClear(code.chunks, data.chunks);
      var endAddress := ComputeEndAddress();
      out := seq(endAddress, _ => 0);
      NothingUnder(endAddress);
      ClearPrefix(code.chunks + data.chunks, |code.chunks|);
      assert (code.chunks + data.chunks)[..|code.chunks|] == code.chunks;
      assert [] + code.chunks == code.chunks;
      ok, out := CopySegment(out, code.chunks, []);
      if !ok { return; }
      ok, out := CopySegment(out, data.chunks, code.chunks);
    }

    /** Merges the code and then the data of a unit. */
    method MergeUnit(unit: CompileUnit, ghost plan: Plan) returns (exited: bool)
      requires Valid() && SoundUnit(unit) && places.Keys !! UnitIds(unit) && Follows(plan) && !plan.exited
      modifies this, code, data
      ensures Valid() && Joined(old(exportIdentifiers), exportIdentifiers)
      ensures Follows(PlanUnit(plan, unit)) && exited == PlanUnit(plan, unit).exited
      ensures TookUnit(old(places), places, old(References(exportIdentifiers)), References(exportIdentifiers), unit,
                       Failed(PlanUnit(plan, unit)))
      ensures Gained(old(Names(exportIdentifiers)), Names(exportIdentifiers), UnitNames(unit), Failed(PlanUnit(plan, unit)))
    {
      hide Merged, References, Joined, AllWanted, SoundChunks, DistinctIds, TookUnit, Gained, SizedPoints, Ids, Names, NamesFor, UnitNames,
           PlanSegment, SameLayout, Took;
      ghost var before, first := places, exportIdentifiers;
      NotYet(places, places.Keys, unit.code);
      var n, lostCode, exitedCode := MergeSegmentForUnit(unit, unit.code, Code, plan);
      ghost var mid, exportsMid, planMid := places, exportIdentifiers, PlanSegment(plan, unit.identifiers, unit.code, Code);
      StillNotYet(before, mid, unit, n);
      var m, lostData, exitedData := 0, false, exitedCode;
      if exitedCode {
        StopsHere(planMid, unit.identifiers, unit.data, Data);
        TookNone(mid, Data);
        GainedNone(References(exportsMid), unit.imports, unit.data);
        NamesNone(Names(exportsMid), unit.imports, unit.data);
        JoinedNames(first, exportIdentifiers);
        JoinedSelf(exportsMid);
        assert unit.data[..0] == [];
      } else {
        m, lostData, exitedData := MergeSegmentForUnit(unit, unit.data, Data, planMid);
      }
      ghost var short := n < |unit.code| || m < |unit.data| || lostCode || lostData;
      TookBoth(before, mid, places, unit, n, m, References(first), References(exportsMid), References(exportIdentifiers), lostCode, lostData);
      JoinedThen(first, exportsMid, exportIdentifiers);
      NamesBoth(Names(first), Names(exportsMid), Names(exportIdentifiers), unit, n, m, lostCode, lostData);
      if Failed(PlanUnit(plan, unit)) {
        GainedLess(Names(first), Names(exportIdentifiers), UnitNames(unit), short);
        TookLess(before, places, References(first), References(exportIdentifiers), unit, short);
      }
      exited := exitedData;
    }

    /**
     Links the units. Where every chunk goes, what is written locally and whether a chunk is
     refused or a local point fails is what the plan says. The image has every merged chunk at
     its own address, clear of all others, its bytes after the local writes, the addresses of its
     imports filled in, and zeros elsewhere. When no chunk was refused and no local point failed,
     all chunks of all units are in the image, all their imports are resolved, and linking fails
     exactly when an export has no definition or a name is imported that is no export.
     */
    method MergeUnits(units: seq<CompileUnit>) returns (ok: bool, out: seq<Byte>)
      requires Valid() && Follows(Start(loads)) && References(exportIdentifiers) == {} && SoundUnits(units)
      modifies this, code, data
      ensures var plan := PlanUnits(Start(old(loads)), units);
              && Follows(plan)
              && (ok <==> !plan.exited && AllDefined(exportIdentifiers))
              && (!Failed(plan) ==> (ok <==> AllDefined(old(exportIdentifiers)) && NamesOf(units) <= old(Names(exportIdentifiers))))
              && TookUnits(places, References(exportIdentifiers), units, Failed(plan))
      ensures code != data && Laid(code.chunks, data.chunks) && Placed(code.chunks, data.chunks, loads, places)
      ensures ok ==> |out| == End(code.chunks) + End(data.chunks)
      ensures ok ==> LinkedImage(out, loads, places, exportIdentifiers, log)
      ensures Joined(old(exportIdentifiers), exportIdentifiers)
    {
      hide Merged, References, Joined, TookUnits, TookUnit, SoundUnits, LinkedImage, UniqueNames, Shows, Blank, IdsOf, UnitIds, Names,
           NamesOf, UnitNames, Gained, AllDefined, PlanUnit, PlanUnits, SameLayout;
      ghost var plan := Start(loads);
      ghost var now, first := plan, exportIdentifiers;
      NamesNoUnits(Names(exportIdentifiers), units);
      TookNoUnits(places, References(exportIdentifiers), units);
      MergedFacts(code.chunks, data.chunks, loads, places, exportIdentifiers, log);
      JoinedSelf(first);
      assert units[0..] == units;
      ok, out := false, [];
      for u := 0 to |units|
        invariant Valid() && Joined(first, exportIdentifiers) && Follows(now) && !now.exited && !ok
        invariant PlanUnits(plan, units) == PlanUnits(now, units[u..])
        invariant TookUnits(places, References(exportIdentifiers), units[..u], Failed(now))
        invariant Gained(Names(first), Names(exportIdentifiers), NamesOf(units[..u]), Failed(now))
      {
        FreshUnit(places, References(exportIdentifiers), units, u, Failed(now));
        UnitStep(now, units, u);
        ghost var before, mid, was := places, exportIdentifiers, now;
        var exited := MergeUnit(units[u], now);
        now := PlanUnit(now, units[u]);
        StaysFailed(was, units[u]);
        TookNextUnit(before, places, References(mid), References(exportIdentifiers), units, u, Failed(was), Failed(now));
        NamesNextUnit(Names(first), Names(mid), Names(exportIdentifiers), units, u, Failed(was), Failed(now));
        JoinedThen(first, mid, exportIdentifiers);
        if exited {
          TookFewer(places, References(exportIdentifiers), units, u + 1, Failed(now));
          MergedFacts(code.chunks, data.chunks, loads, places, exportIdentifiers, log);
          UnitsEnd(now, units[u + 1..]);
          return;
        }
      }
      UnitsEnd(now, units[|units|..]);
      assert units[..|units|] == units;
      ghost var codeMerged, dataMerged := code.chunks, data.chunks;
      DefinedBefore(first, exportIdentifiers);
      AllGained(Names(first), Names(exportIdentifiers), NamesOf(units), Failed(now));
      ok := RelocateExports();
      StillMerged(codeMerged, dataMerged, code.chunks, data.chunks, loads, places, exportIdentifiers, log);
      SameLayoutThen(now.code, codeMerged, code.chunks);
      SameLayoutThen(now.data, dataMerged, data.chunks);
      if !ok { return; }
      ok, out := FinalMergeOfSegments();
      ImageIsLinked(out, code.chunks, data.chunks, loads, places, exportIdentifiers, log);
    }
  }
}
