/** What a linked program is: which chunk of which unit lies where, and what is patched into it. */
module Merging {
  import opened Basics
  import opened Layout
  import opened Numbers

  datatype SegmentType = Code | Data

  /** A chunk of a compile unit; the id stands for its identity. */
  datatype UnitChunk = UnitChunk(id: nat, bytes: seq<Byte>)

  /** A place inside a chunk that waits for the address of a symbol. */
  datatype ResolvePoint = ResolvePoint(segment: SegmentType, chunk: nat, opSize: nat, isRelative: bool, placeholder: nat)

  datatype Identifier = Identifier(chunk: nat, relativeAddress: nat)

  /** A label of a unit, and the points in the same unit that wait for it. */
  datatype LocalIdentifier = LocalIdentifier(name: string, symbol: Identifier, absoluteAddress: nat, points: seq<ResolvePoint>)

  datatype Import = Import(name: string, points: seq<ResolvePoint>)

  datatype Export = Export(name: string, orig: Option<Identifier>, points: seq<ResolvePoint>)

  datatype CompileUnit =
    CompileUnit(code: seq<UnitChunk>, data: seq<UnitChunk>, identifiers: seq<LocalIdentifier>, imports: seq<Import>)

  /** Where the copy of a unit's chunk went, and what the unit had in it. */
  datatype Place = Place(kind: SegmentType, index: nat, bytes: seq<Byte>)

  function Pick<T>(code: T, data: T, kind: SegmentType): T
  {
    if kind.Code? then code else data
  }

  ghost predicate Laid(code: seq<Chunk>, data: seq<Chunk>)
  {
    Ordered(code) && Ordered(data) && Apart(code, data)
  }

  predicate InPlace(chunks: seq<Chunk>, place: Place, load: nat)
  {
    place.index < |chunks| && chunks[place.index].load == load && |chunks[place.index].data| == |place.bytes|
  }

  /** Every chunk merged so far has its copy at its load address, and no two share one. */
  ghost predicate Placed(code: seq<Chunk>, data: seq<Chunk>, loads: map<nat, nat>, places: map<nat, Place>)
  {
    && (forall id :: id in places ==> id in loads && InPlace(Pick(code, data, places[id].kind), places[id], loads[id]))
    && (forall a, b :: a in places && b in places && a != b ==>
          places[a].kind != places[b].kind || places[a].index != places[b].index)
  }

  function LoadOf(loads: map<nat, nat>, id: nat): nat
  {
    if id in loads then loads[id] else 0
  }

  /** What the copy of a unit's chunk holds. */
  function Bytes(code: seq<Chunk>, data: seq<Chunk>, place: Place): seq<Byte>
  {
    var chunks := Pick(code, data, place.kind);
    if place.index < |chunks| then chunks[place.index].data else []
  }

  /** A resolve point together with the symbol it waits for. */
  datatype Reference = Reference(name: string, point: ResolvePoint)

  /** A number that local relocation has written into a chunk of a segment. */
  datatype Write = Write(kind: SegmentType, index: nat, offset: nat, size: nat, value: nat)

  /** The bytes of one chunk after the writes that went into it. */
  function Applied(b: seq<Byte>, log: seq<Write>, kind: SegmentType, index: nat): (r: seq<Byte>)
    ensures |r| == |b|
  {
    if |log| == 0 then b
    else
      var rest, w := Applied(b, log[..|log| - 1], kind, index), log[|log| - 1];
      if w.kind == kind && w.index == index && w.offset + w.size <= |b| then Patched(rest, w.offset, w.value, w.size) else rest
  }

  lemma AppliedNext(b: seq<Byte>, log: seq<Write>, w: Write, kind: SegmentType, index: nat)
    ensures Applied(b, log + [w], kind, index) ==
            if w.kind == kind && w.index == index && w.offset + w.size <= |b|
            then Patched(Applied(b, log, kind, index), w.offset, w.value, w.size)
            else Applied(b, log, kind, index)
  {
    assert (log + [w])[..|log|] == log;
  }

  lemma {:induction false} NotApplied(b: seq<Byte>, log: seq<Write>, kind: SegmentType, index: nat)
    requires forall i :: 0 <= i < |log| ==> log[i].kind != kind || log[i].index != index
    ensures Applied(b, log, kind, index) == b
  {
    if |log| > 0 {
      NotApplied(b, log[..|log| - 1], kind, index);
    }
  }

  /** What a unit's chunk holds once its local points are relocated. */
  function Local(place: Place, log: seq<Write>): (r: seq<Byte>)
    ensures |r| == |place.bytes|
  {
    Applied(place.bytes, log, place.kind, place.index)
  }

  /** All writes went into chunks that are there. */
  ghost predicate LogWithin(code: seq<Chunk>, data: seq<Chunk>, log: seq<Write>)
  {
    forall i :: 0 <= i < |log| ==> log[i].index < |Pick(code, data, log[i].kind)|
  }

  /** Byte j of a chunk is under some reference. */
  ghost predicate Covered(refs: set<Reference>, id: nat, j: nat)
  {
    exists r :: r in refs && r.point.chunk == id && r.point.placeholder <= j < r.point.placeholder + r.point.opSize
  }

  /** Everything that no reference covers is as the unit had it, after its local relocation. */
  ghost predicate Kept(code: seq<Chunk>, data: seq<Chunk>, places: map<nat, Place>, log: seq<Write>, done: set<Reference>)
  {
    forall id :: id in places ==> KeptIn(Bytes(code, data, places[id]), Local(places[id], log), done, id)
  }

  ghost predicate KeptIn(now: seq<Byte>, was: seq<Byte>, done: set<Reference>, id: nat)
  {
    |now| == |was| && forall j :: 0 <= j < |was| && !Covered(done, id, j) ==> now[j] == was[j]
  }

  ghost predicate Owned(places: map<nat, Place>, kind: SegmentType, k: nat)
  {
    exists id :: id in places && places[id].kind == kind && places[id].index == k
  }

  /** Nothing lies in the segments but the copies. */
  ghost predicate AllOwned(code: seq<Chunk>, data: seq<Chunk>, places: map<nat, Place>)
  {
    && (forall k :: 0 <= k < |code| ==> Owned(places, Code, k))
    && (forall k :: 0 <= k < |data| ==> Owned(places, Data, k))
  }

  function With(chunks: seq<Chunk>, mine: bool, chunk: Chunk): seq<Chunk>
  {
    if mine then chunks + [chunk] else chunks
  }

  /** A chunk behind all others keeps them apart. */
  lemma LaidNext(code: seq<Chunk>, data: seq<Chunk>, kind: SegmentType, chunk: Chunk)
    requires Laid(code, data) && End(code) <= chunk.load && End(data) <= chunk.load
    ensures Laid(With(code, kind.Code?, chunk), With(data, kind.Data?, chunk))
    ensures SortedInsert(Pick(code, data, kind), chunk) == Pick(code, data, kind) + [chunk]
  {
    hide End, Ordered, Apart;
    ApartSymmetric(code, data);
    InsertBehind(Pick(code, data, kind), Pick(data, code, kind), chunk);
    ApartSymmetric(Pick(code, data, kind) + [chunk], Pick(data, code, kind));
  }

  lemma KeepsPlace(chunks: seq<Chunk>, mine: bool, chunk: Chunk, place: Place, load: nat)
    requires InPlace(chunks, place, load)
    ensures InPlace(With(chunks, mine, chunk), place, load) && place.index < |chunks|
    ensures With(chunks, mine, chunk)[place.index] == chunks[place.index]
  {
  }

  lemma PlacedNext(code: seq<Chunk>, data: seq<Chunk>, loads: map<nat, nat>, places: map<nat, Place>,
                   kind: SegmentType, id: nat, load: nat, bytes: seq<Byte>)
    requires Placed(code, data, loads, places) && id !in places
    ensures var chunk := Chunk(load, bytes);
            var code', data' := With(code, kind.Code?, chunk), With(data, kind.Data?, chunk);
            var places' := places[id := Place(kind, |Pick(code, data, kind)|, bytes)];
            && Placed(code', data', loads[id := load], places')
            && forall i :: i in places' ==> Bytes(code', data', places'[i]) == if i == id then bytes else Bytes(code, data, places[i])
  {
    var chunk := Chunk(load, bytes);
    var code', data' := With(code, kind.Code?, chunk), With(data, kind.Data?, chunk);
    var places' := places[id := Place(kind, |Pick(code, data, kind)|, bytes)];
    NewPlace(code, data, kind, chunk);
    hide With, Bytes, InPlace;
    forall i | i in places'
      ensures InPlace(Pick(code', data', places'[i].kind), places'[i], loads[id := load][i])
      ensures Bytes(code', data', places'[i]) == if i == id then bytes else Bytes(code, data, places[i])
    {
      if i != id { OldPlace(code, data, kind, chunk, places[i], loads[i]); }
    }
    forall i | i in places ensures places[i].index < |Pick(code, data, places[i].kind)| {
      OldPlace(code, data, kind, chunk, places[i], loads[i]);
    }
  }

  lemma NewPlace(code: seq<Chunk>, data: seq<Chunk>, kind: SegmentType, chunk: Chunk)
    ensures var place := Place(kind, |Pick(code, data, kind)|, chunk.data);
            var code', data' := With(code, kind.Code?, chunk), With(data, kind.Data?, chunk);
            InPlace(Pick(code', data', kind), place, chunk.load) && Bytes(code', data', place) == chunk.data
  {
  }

  lemma OldPlace(code: seq<Chunk>, data: seq<Chunk>, kind: SegmentType, chunk: Chunk, place: Place, load: nat)
    requires InPlace(Pick(code, data, place.kind), place, load)
    ensures place.index < |Pick(code, data, place.kind)|
    ensures var code', data' := With(code, kind.Code?, chunk), With(data, kind.Data?, chunk);
            InPlace(Pick(code', data', place.kind), place, load) && Bytes(code', data', place) == Bytes(code, data, place)
  {
    KeepsPlace(Pick(code, data, place.kind), if place.kind.Code? then kind.Code? else kind.Data?, chunk, place, load);
  }

  /** A new chunk holds its bytes, and nothing has been written there. */
  lemma KeptFresh(code: seq<Chunk>, data: seq<Chunk>, loads: map<nat, nat>, places: map<nat, Place>, log: seq<Write>,
                  kind: SegmentType, id: nat, load: nat, bytes: seq<Byte>)
    requires Placed(code, data, loads, places) && Kept(code, data, places, log, {}) && LogWithin(code, data, log) && id !in places
    ensures var chunk := Chunk(load, bytes);
            var code', data' := With(code, kind.Code?, chunk), With(data, kind.Data?, chunk);
            Kept(code', data', places[id := Place(kind, |Pick(code, data, kind)|, bytes)], log, {}) && LogWithin(code', data', log)
  {
    hide KeptIn, Bytes, Placed, Applied;
    PlacedNext(code, data, loads, places, kind, id, load, bytes);
    NotApplied(bytes, log, kind, |Pick(code, data, kind)|);
    KeptSelf(bytes, {}, id);
  }

  lemma KeptSelf(bytes: seq<Byte>, done: set<Reference>, id: nat)
    ensures KeptIn(bytes, bytes, done, id)
  {
  }

  lemma OwnedNext(code: seq<Chunk>, data: seq<Chunk>, places: map<nat, Place>, kind: SegmentType, id: nat, chunk: Chunk)
    requires AllOwned(code, data, places) && id !in places
    ensures AllOwned(With(code, kind.Code?, chunk), With(data, kind.Data?, chunk),
                     places[id := Place(kind, |Pick(code, data, kind)|, chunk.data)])
  {
    var places' := places[id := Place(kind, |Pick(code, data, kind)|, chunk.data)];
    forall j: nat, q: SegmentType | Owned(places, q, j) ensures Owned(places', q, j) {
      var i :| i in places && places[i].kind == q && places[i].index == j;
      assert i in places';
    }
    assert id in places';
    assert Owned(places', kind, |Pick(code, data, kind)|);
  }

  ghost function PointsOf(name: string, points: seq<ResolvePoint>): set<Reference>
  {
    set p | p in points :: Reference(name, p)
  }

  /** The points of an import that lie in one chunk and can be linked. */
  ghost function WantedPoints(name: string, points: seq<ResolvePoint>, id: nat): set<Reference>
  {
    set p | p in points && p.chunk == id && !p.isRelative :: Reference(name, p)
  }

  ghost function Wanted(imports: seq<Import>, id: nat): set<Reference>
  {
    if |imports| == 0 then {}
    else Wanted(imports[..|imports| - 1], id) + WantedPoints(imports[|imports| - 1].name, imports[|imports| - 1].points, id)
  }

  ghost function References(exports: seq<Export>): set<Reference>
  {
    if |exports| == 0 then {}
    else References(exports[..|exports| - 1]) + PointsOf(exports[|exports| - 1].name, exports[|exports| - 1].points)
  }

  lemma WantedStep(name: string, points: seq<ResolvePoint>, j: nat, id: nat)
    requires j < |points|
    ensures var p := points[j];
            WantedPoints(name, points[..j + 1], id)
            == WantedPoints(name, points[..j], id) + (if p.chunk == id && !p.isRelative then {Reference(name, p)} else {})
  {
    assert points[..j + 1] == points[..j] + [points[j]];
  }

  lemma NoneWanted(name: string, id: nat)
    ensures WantedPoints(name, [], id) == {}
  {
  }

  lemma WantedImport(imports: seq<Import>, i: nat, id: nat)
    requires i < |imports|
    ensures Wanted(imports[..i + 1], id) == Wanted(imports[..i], id) + WantedPoints(imports[i].name, imports[i].points, id)
    ensures ImportNames(imports[..i + 1]) == ImportNames(imports[..i]) + {imports[i].name}
  {
    assert imports[..i + 1][..i] == imports[..i];
    assert imports[..i + 1] == imports[..i] + [imports[i]];
  }

  lemma NoImports(id: nat)
    ensures Wanted([], id) == {} && ImportNames([]) == {}
  {
  }

  /** The index of the export with a name, or the number of exports. */
  function IndexOf(exports: seq<Export>, name: string): (k: nat)
    ensures k <= |exports| && (k < |exports| ==> exports[k].name == name)
    ensures forall i :: 0 <= i < k ==> exports[i].name != name
  {
    if |exports| == 0 then 0
    else if exports[0].name == name then 0
    else 1 + IndexOf(exports[1..], name)
  }

  predicate UniqueNames(exports: seq<Export>)
  {
    forall i, j :: 0 <= i < j < |exports| ==> exports[i].name != exports[j].name
  }

  ghost function Names(exports: seq<Export>): set<string>
  {
    set e | e in exports :: e.name
  }

  ghost function ImportNames(imports: seq<Import>): set<string>
  {
    set i | i in imports :: i.name
  }

  /** The exports with one of that name, which has no symbol yet when it is new. */
  function Declared(exports: seq<Export>, name: string): seq<Export>
  {
    if IndexOf(exports, name) < |exports| then exports else exports + [Export(name, None, [])]
  }

  /** The exports with a point added to the one of that name. */
  function AddPoint(exports: seq<Export>, name: string, p: ResolvePoint): (r: seq<Export>)
  {
    var k := IndexOf(exports, name);
    if k < |exports| then exports[k := exports[k].(points := exports[k].points + [p])] else exports
  }

  lemma InNames(exports: seq<Export>, name: string)
    ensures name in Names(exports) <==> IndexOf(exports, name) < |exports|
  {
    var k := IndexOf(exports, name);
    if k < |exports| {
      assert exports[k] in exports;
    }
  }

  lemma DeclaredJoins(before: seq<Export>, exports: seq<Export>, name: string)
    requires Joined(before, exports)
    ensures Joined(before, Declared(exports, name))
    ensures Names(Declared(exports, name)) == Names(exports) + {name}
    ensures References(Declared(exports, name)) == References(exports)
  {
    hide Names, References;
    InNames(exports, name);
    NewName(exports, name);
  }

  lemma NewName(exports: seq<Export>, name: string)
    ensures Names(exports + [Export(name, None, [])]) == Names(exports) + {name}
    ensures References(exports + [Export(name, None, [])]) == References(exports)
  {
    var declared := exports + [Export(name, None, [])];
    assert declared[..|declared| - 1] == exports;
    assert PointsOf(name, []) == {};
  }

  lemma {:induction false} ReferencesMember(exports: seq<Export>, r: Reference)
    ensures r in References(exports) <==> exists k :: 0 <= k < |exports| && exports[k].name == r.name && r.point in exports[k].points
  {
    if |exports| > 0 {
      var init, last := exports[..|exports| - 1], exports[|exports| - 1];
      ReferencesMember(init, r);
      assert r in PointsOf(last.name, last.points) <==> last.name == r.name && r.point in last.points;
      forall k | 0 <= k < |init| ensures init[k] == exports[k] {
      }
    }
  }

  lemma SameNames(a: seq<Export>, b: seq<Export>)
    requires |a| == |b| && forall k :: 0 <= k < |a| ==> a[k].name == b[k].name
    ensures Names(a) == Names(b)
  {
    forall e | e in a ensures e.name in Names(b) {
      var k :| 0 <= k < |a| && a[k] == e;
      assert b[k] in b;
    }
    forall e | e in b ensures e.name in Names(a) {
      var k :| 0 <= k < |b| && b[k] == e;
      assert a[k] in a;
    }
  }

  lemma AddPointRefers(exports: seq<Export>, name: string, p: ResolvePoint)
    requires UniqueNames(exports) && name in Names(exports)
    ensures UniqueNames(AddPoint(exports, name, p)) && Names(AddPoint(exports, name, p)) == Names(exports)
    ensures References(AddPoint(exports, name, p)) == References(exports) + {Reference(name, p)}
  {
    hide References;
    var added, k := AddPoint(exports, name, p), IndexOf(exports, name);
    InNames(exports, name);
    SameNames(exports, added);
    forall r ensures r in References(added) <==> r in References(exports) || r == Reference(name, p) {
      ReferencesMember(exports, r);
      ReferencesMember(added, r);
      if r == Reference(name, p) {
        assert added[k].name == name && p in added[k].points;
      } else if r in References(exports) {
        var i :| 0 <= i < |exports| && exports[i].name == r.name && r.point in exports[i].points;
        assert added[i].name == r.name && r.point in added[i].points;
      }
    }
  }

  /** The exports that were known keep their symbols; the ones that joined have none. */
  ghost predicate Joined(before: seq<Export>, after: seq<Export>)
  {
    && |before| <= |after| && UniqueNames(after)
    && (forall k :: 0 <= k < |before| ==> after[k].name == before[k].name && after[k].orig == before[k].orig)
    && (forall k :: |before| <= k < |after| ==> after[k].orig == None)
  }

  lemma JoinedSelf(exports: seq<Export>)
    requires UniqueNames(exports)
    ensures Joined(exports, exports)
  {
  }

  lemma JoinedThen(a: seq<Export>, b: seq<Export>, c: seq<Export>)
    requires Joined(a, b) && Joined(b, c)
    ensures Joined(a, c)
  {
  }

  lemma JoinedNames(before: seq<Export>, after: seq<Export>)
    requires Joined(before, after)
    ensures UniqueNames(after)
  {
  }

  lemma AddPointJoins(before: seq<Export>, exports: seq<Export>, name: string, p: ResolvePoint)
    requires Joined(before, exports)
    ensures Joined(before, AddPoint(exports, name, p))
  {
  }

  predicate Overlap(a: ResolvePoint, b: ResolvePoint)
  {
    a.chunk == b.chunk && a.placeholder < b.placeholder + b.opSize && b.placeholder < a.placeholder + a.opSize
  }

  /** No two different references write over each other. */
  ghost predicate NoOverlap(refs: set<Reference>)
  {
    forall a, b :: a in refs && b in refs && a != b ==> !Overlap(a.point, b.point)
  }

  /** The placeholder is inside the chunk it belongs to. */
  predicate Within(p: ResolvePoint, id: nat, kind: SegmentType, size: nat)
  {
    p.chunk == id && !p.isRelative && p.segment == kind && OperandSize(p.opSize) && p.placeholder + p.opSize <= size
  }

  /** The references into one chunk are sound: inside it, and clear of each other. */
  ghost predicate SoundChunk(imports: seq<Import>, kind: SegmentType, c: UnitChunk)
  {
    NoOverlap(Wanted(imports, c.id)) && forall r :: r in Wanted(imports, c.id) ==> Within(r.point, c.id, kind, |c.bytes|)
  }

  ghost predicate SoundChunks(imports: seq<Import>, kind: SegmentType, chunks: seq<UnitChunk>)
  {
    forall i :: 0 <= i < |chunks| ==> SoundChunk(imports, kind, chunks[i])
  }

  /** All references that can be linked lie in merged chunks. */
  ghost predicate SoundReferences(refs: set<Reference>, places: map<nat, Place>)
  {
    && NoOverlap(refs)
    && forall r :: r in refs ==>
         r.point.chunk in places && Within(r.point, r.point.chunk, places[r.point.chunk].kind, |places[r.point.chunk].bytes|)
  }

  lemma SoundNext(refs: set<Reference>, places: map<nat, Place>, imports: seq<Import>, kind: SegmentType, c: UnitChunk, index: nat)
    requires SoundReferences(refs, places) && c.id !in places && SoundChunk(imports, kind, c)
    ensures SoundReferences(refs + Wanted(imports, c.id), places[c.id := Place(kind, index, c.bytes)])
  {
    hide Wanted;
  }

  function PatchedChunk(chunks: seq<Chunk>, mine: bool, k: nat, offset: nat, value: nat, size: nat): seq<Chunk>
    requires mine ==> k < |chunks| && offset + size <= |chunks[k].data|
  {
    if mine then chunks[k := Chunk(chunks[k].load, Patched(chunks[k].data, offset, value, size))] else chunks
  }

  lemma {:induction false} SameEnd(a: seq<Chunk>, b: seq<Chunk>)
    requires SameLayout(a, b)
    ensures End(a) == End(b)
  {
    if |a| > 0 {
      SameEnd(a[..|a| - 1], b[..|b| - 1]);
    }
  }

  lemma SameLaid(code: seq<Chunk>, data: seq<Chunk>, code': seq<Chunk>, data': seq<Chunk>)
    requires Laid(code, data) && SameLayout(code, code') && SameLayout(data, data')
    ensures Laid(code', data')
  {
  }

  lemma SamePlaced(code: seq<Chunk>, data: seq<Chunk>, code': seq<Chunk>, data': seq<Chunk>, loads: map<nat, nat>, places: map<nat, Place>)
    requires Placed(code, data, loads, places) && SameLayout(code, code') && SameLayout(data, data')
    ensures Placed(code', data', loads, places)
  {
  }

  lemma CoveredMore(done: set<Reference>, r: Reference, id: nat, j: nat)
    ensures Covered(done, id, j) ==> Covered(done + {r}, id, j)
  {
    if Covered(done, id, j) {
      var q :| q in done && q.point.chunk == id && q.point.placeholder <= j < q.point.placeholder + q.point.opSize;
      assert q in done + {r};
    }
  }

  lemma KeptNext(was: seq<Byte>, b: seq<Byte>, done: set<Reference>, id: nat, r: Reference, value: nat)
    requires KeptIn(b, was, done, id) && r.point.chunk == id && r.point.placeholder + r.point.opSize <= |b|
    ensures KeptIn(Patched(b, r.point.placeholder, value, r.point.opSize), was, done + {r}, id)
  {
    var b' := Patched(b, r.point.placeholder, value, r.point.opSize);
    forall j | 0 <= j < |was| && !Covered(done + {r}, id, j) ensures b'[j] == was[j] {
      assert r in done + {r};
      CoveredMore(done, r, id, j);
    }
  }

  lemma KeptMore(was: seq<Byte>, b: seq<Byte>, done: set<Reference>, id: nat, r: Reference)
    requires KeptIn(b, was, done, id)
    ensures KeptIn(b, was, done + {r}, id)
  {
    forall j | 0 <= j < |was| && !Covered(done + {r}, id, j) ensures b[j] == was[j] {
      CoveredMore(done, r, id, j);
    }
  }

  /**
   What holds between two merges: everything is laid out, every copy is as its unit had it but
   for the local writes, and the references wait for their symbols.
   */
  ghost predicate Merged(code: seq<Chunk>, data: seq<Chunk>, loads: map<nat, nat>, places: map<nat, Place>,
                         exports: seq<Export>, log: seq<Write>)
  {
    && Laid(code, data) && Placed(code, data, loads, places) && Kept(code, data, places, log, {}) && LogWithin(code, data, log)
    && AllOwned(code, data, places) && UniqueNames(exports) && SoundReferences(References(exports), places)
  }

  lemma MergedFacts(code: seq<Chunk>, data: seq<Chunk>, loads: map<nat, nat>, places: map<nat, Place>,
                    exports: seq<Export>, log: seq<Write>)
    requires Merged(code, data, loads, places, exports, log)
    ensures Laid(code, data) && Placed(code, data, loads, places) && UniqueNames(exports) && SoundReferences(References(exports), places)
  {
  }

  lemma NothingMerged(loads: map<nat, nat>, exports: seq<Export>)
    requires UniqueNames(exports) && References(exports) == {}
    ensures Merged([], [], loads, map[], exports, [])
  {
  }

  lemma SoundMore(refs: set<Reference>, places: map<nat, Place>, id: nat, place: Place)
    requires SoundReferences(refs, places) && id !in places
    ensures SoundReferences(refs, places[id := place])
  {
  }

  /** A copied chunk joins the others before anything is patched. */
  lemma MergeNext(code: seq<Chunk>, data: seq<Chunk>, loads: map<nat, nat>, places: map<nat, Place>, exports: seq<Export>,
                  log: seq<Write>, kind: SegmentType, c: UnitChunk, load: nat)
    requires Merged(code, data, loads, places, exports, log) && c.id !in places
    requires End(code) <= load && End(data) <= load
    ensures var full := Chunk(load, c.bytes);
            Merged(With(code, kind.Code?, full), With(data, kind.Data?, full), loads[c.id := load],
                   places[c.id := Place(kind, |Pick(code, data, kind)|, c.bytes)], exports, log)
  {
    hide Laid, Placed, Kept, AllOwned, SoundReferences, References, End, UniqueNames, LogWithin, Bytes;
    LaidNext(code, data, kind, Chunk(load, c.bytes));
    PlacedNext(code, data, loads, places, kind, c.id, load, c.bytes);
    KeptFresh(code, data, loads, places, log, kind, c.id, load, c.bytes);
    SoundMore(References(exports), places, c.id, Place(kind, |Pick(code, data, kind)|, c.bytes));
    OwnedNext(code, data, places, kind, c.id, Chunk(load, c.bytes));
  }

  /** Its imports join the exports. */
  lemma ImportsNext(code: seq<Chunk>, data: seq<Chunk>, loads: map<nat, nat>, before: map<nat, Place>, places: map<nat, Place>,
                    exports: seq<Export>, log: seq<Write>, imports: seq<Import>, kind: SegmentType, c: UnitChunk,
                    index: nat, after: seq<Export>)
    requires Merged(code, data, loads, places, exports, log) && SoundChunk(imports, kind, c)
    requires SoundReferences(References(exports), before) && c.id !in before && places == before[c.id := Place(kind, index, c.bytes)]
    requires Joined(exports, after) && References(after) == References(exports) + Wanted(imports, c.id)
    ensures Merged(code, data, loads, places, after, log)
  {
    hide Laid, Placed, Kept, AllOwned, SoundReferences, SoundChunk, References, Wanted, UniqueNames;
    SoundNext(References(exports), before, imports, kind, c, index);
    JoinedNames(exports, after);
  }

  /** A local patch, wherever it lands, moves nothing and changes nothing but what it writes. */
  lemma LocalPatched(code: seq<Chunk>, data: seq<Chunk>, loads: map<nat, nat>, places: map<nat, Place>, exports: seq<Export>,
                     log: seq<Write>, w: Write)
    requires Merged(code, data, loads, places, exports, log) && w.index < |Pick(code, data, w.kind)|
    requires w.offset + w.size <= |Pick(code, data, w.kind)[w.index].data|
    ensures Merged(PatchedChunk(code, w.kind.Code?, w.index, w.offset, w.value, w.size),
                   PatchedChunk(data, w.kind.Data?, w.index, w.offset, w.value, w.size), loads, places, exports, log + [w])
  {
    hide Laid, AllOwned, SoundReferences, References, UniqueNames, Patched, Kept;
    var code', data' := PatchedChunk(code, w.kind.Code?, w.index, w.offset, w.value, w.size),
                        PatchedChunk(data, w.kind.Data?, w.index, w.offset, w.value, w.size);
    SameLaid(code, data, code', data');
    SamePlaced(code, data, code', data', loads, places);
    SameOwned(code, data, code', data', places);
    LocalKept(code, data, loads, places, log, w);
  }

  lemma LocalKept(code: seq<Chunk>, data: seq<Chunk>, loads: map<nat, nat>, places: map<nat, Place>, log: seq<Write>, w: Write)
    requires Placed(code, data, loads, places) && Kept(code, data, places, log, {})
    requires w.index < |Pick(code, data, w.kind)| && w.offset + w.size <= |Pick(code, data, w.kind)[w.index].data|
    ensures Kept(PatchedChunk(code, w.kind.Code?, w.index, w.offset, w.value, w.size),
                 PatchedChunk(data, w.kind.Data?, w.index, w.offset, w.value, w.size), places, log + [w], {})
  {
    hide Patched, Applied;
    var code', data' := PatchedChunk(code, w.kind.Code?, w.index, w.offset, w.value, w.size),
                        PatchedChunk(data, w.kind.Data?, w.index, w.offset, w.value, w.size);
    forall id | id in places ensures KeptIn(Bytes(code', data', places[id]), Local(places[id], log + [w]), {}, id) {
      var place := places[id];
      AppliedNext(place.bytes, log, w, place.kind, place.index);
      KeptAll(Bytes(code, data, place), Local(place, log), id);
    }
  }

  lemma KeptAll(now: seq<Byte>, was: seq<Byte>, id: nat)
    ensures KeptIn(now, was, {}, id) <==> now == was
  {
    if KeptIn(now, was, {}, id) {
      forall j | 0 <= j < |was| ensures now[j] == was[j] {
        assert !Covered({}, id, j);
      }
    }
  }

  /** A patch of a copy, recorded, leaves everything else as it was. */
  lemma PatchKept(code: seq<Chunk>, data: seq<Chunk>, loads: map<nat, nat>, places: map<nat, Place>, log: seq<Write>,
                  done: set<Reference>, r: Reference, value: nat)
    requires Placed(code, data, loads, places) && Kept(code, data, places, log, done) && r.point.chunk in places
    requires r.point.placeholder + r.point.opSize <= |places[r.point.chunk].bytes|
    ensures var place := places[r.point.chunk]; var p := r.point;
            && place.index < |Pick(code, data, place.kind)|
            && |Pick(code, data, place.kind)[place.index].data| == |place.bytes|
            && Kept(PatchedChunk(code, place.kind.Code?, place.index, p.placeholder, value, p.opSize),
                    PatchedChunk(data, place.kind.Data?, place.index, p.placeholder, value, p.opSize), places, log, done + {r})
  {
    hide KeptIn, Bytes, Patched, PatchedChunk, Applied;
    var at, place := r.point.chunk, places[r.point.chunk];
    assert Kept(code, data, places, log, done);
    forall i | i in places
      ensures KeptIn(Bytes(PatchedChunk(code, place.kind.Code?, place.index, r.point.placeholder, value, r.point.opSize),
                           PatchedChunk(data, place.kind.Data?, place.index, r.point.placeholder, value, r.point.opSize),
                           places[i]), Local(places[i], log), done + {r}, i)
    {
      OneCopyPatched(code, data, loads, places, at, r.point.placeholder, value, r.point.opSize, i);
      if i == at {
        KeptLength(Bytes(code, data, place), Local(place, log), done, i);
        KeptNext(Local(place, log), Bytes(code, data, place), done, i, r, value);
      } else {
        KeptMore(Local(places[i], log), Bytes(code, data, places[i]), done, i, r);
      }
    }
  }

  lemma KeptLength(now: seq<Byte>, was: seq<Byte>, done: set<Reference>, id: nat)
    requires KeptIn(now, was, done, id)
    ensures |now| == |was|
  {
  }

  lemma SameOwned(code: seq<Chunk>, data: seq<Chunk>, code': seq<Chunk>, data': seq<Chunk>, places: map<nat, Place>)
    requires AllOwned(code, data, places) && SameLayout(code, code') && SameLayout(data, data')
    ensures AllOwned(code', data', places)
  {
  }

  /** A patch in one copy changes the bytes of that copy alone. */
  lemma OneCopyPatched(code: seq<Chunk>, data: seq<Chunk>, loads: map<nat, nat>, places: map<nat, Place>, at: nat,
                       offset: nat, value: nat, size: nat, id: nat)
    requires Placed(code, data, loads, places) && at in places && id in places && offset + size <= |places[at].bytes|
    ensures var place := places[at];
            && place.index < |Pick(code, data, place.kind)|
            && |Pick(code, data, place.kind)[place.index].data| == |place.bytes|
            && var code', data' := PatchedChunk(code, place.kind.Code?, place.index, offset, value, size),
                                   PatchedChunk(data, place.kind.Data?, place.index, offset, value, size);
            Bytes(code', data', places[id])
            == if id == at then Patched(Bytes(code, data, place), offset, value, size) else Bytes(code, data, places[id])
  {
    hide Patched;
  }

  /** A chunk at the end, written to for the first time. */
  lemma FreshChunk(code: seq<Chunk>, data: seq<Chunk>, kind: SegmentType, load: nat, bytes: seq<Byte>)
    ensures var empty, full := Chunk(load, []), Chunk(load, bytes);
            var chunks := Pick(With(code, kind.Code?, empty), With(data, kind.Data?, empty), kind);
            var k := |Pick(code, data, kind)|;
            && |chunks| == k + 1 && chunks[k] == empty
            && With(code, kind.Code?, full) == (if kind.Code? then chunks[k := Chunk(load, [] + bytes)] else With(code, kind.Code?, empty))
            && With(data, kind.Data?, full) == (if kind.Data? then chunks[k := Chunk(load, [] + bytes)] else With(data, kind.Data?, empty))
  {
    assert [] + bytes == bytes;
  }

  lemma LoadsMore(code: seq<Chunk>, data: seq<Chunk>, loads: map<nat, nat>, places: map<nat, Place>, exports: seq<Export>,
                  log: seq<Write>, id: nat, load: nat)
    requires Merged(code, data, loads, places, exports, log) && id !in places
    ensures Merged(code, data, loads[id := load], places, exports, log)
  {
    hide Laid, Kept, AllOwned, SoundReferences, UniqueNames, References, LogWithin;
  }
}
