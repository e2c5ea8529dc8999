/** Patching the addresses of symbols into merged chunks, and the image they make. */
module Resolving {
  import opened Basics
  import opened Layout
  import opened Numbers
  import opened Powers
  import opened Merging

  /** The address of the symbol that an export stands for. */
  function AddressOf(exports: seq<Export>, loads: map<nat, nat>, name: string): nat
  {
    var k := IndexOf(exports, name);
    if k < |exports| && exports[k].orig.Some? then
      exports[k].orig.value.relativeAddress + LoadOf(loads, exports[k].orig.value.chunk)
    else 0
  }

  /** A point reads as a value. */
  predicate Reads(b: seq<Byte>, p: ResolvePoint, value: nat)
  {
    p.placeholder + p.opSize <= |b| && b[p.placeholder..p.placeholder + p.opSize] == BigEndian(value, p.opSize)
  }

  /** The references in done read as the addresses of their symbols. */
  ghost predicate Resolved(code: seq<Chunk>, data: seq<Chunk>, places: map<nat, Place>, done: set<Reference>,
                           exports: seq<Export>, loads: map<nat, nat>)
  {
    forall r :: r in done ==>
      r.point.chunk in places && Reads(Bytes(code, data, places[r.point.chunk]), r.point, AddressOf(exports, loads, r.name))
  }

  /** A patch elsewhere leaves a point as it reads. */
  lemma ReadsStill(b: seq<Byte>, p: ResolvePoint, v: nat, q: ResolvePoint, value: nat)
    requires Reads(b, p, v) && p.chunk == q.chunk && !Overlap(p, q) && q.placeholder + q.opSize <= |b|
    ensures Reads(Patched(b, q.placeholder, value, q.opSize), p, v)
  {
    var b' := Patched(b, q.placeholder, value, q.opSize);
    assert b'[p.placeholder..p.placeholder + p.opSize] == b[p.placeholder..p.placeholder + p.opSize];
  }

  /** One patch resolves one more reference, and disturbs none of the others. */
  lemma PatchNext(code: seq<Chunk>, data: seq<Chunk>, loads: map<nat, nat>, places: map<nat, Place>,
                  refs: set<Reference>, done: set<Reference>, r: Reference, exports: seq<Export>, log: seq<Write>)
    requires Placed(code, data, loads, places) && SoundReferences(refs, places) && done <= refs && r in refs
    requires Resolved(code, data, places, done, exports, loads) && Kept(code, data, places, log, done)
    ensures r.point.chunk in places
    ensures var place := places[r.point.chunk]; var value := AddressOf(exports, loads, r.name); var p := r.point;
            && place.index < |Pick(code, data, place.kind)|
            && p.placeholder + p.opSize <= |Pick(code, data, place.kind)[place.index].data|
            && var code', data' := PatchedChunk(code, place.kind.Code?, place.index, p.placeholder, value, p.opSize),
                                   PatchedChunk(data, place.kind.Data?, place.index, p.placeholder, value, p.opSize);
            && SameLayout(code, code') && SameLayout(data, data')
            && Resolved(code', data', places, done + {r}, exports, loads) && Kept(code', data', places, log, done + {r})
  {
    hide Reads, Kept, AddressOf, Patched, Overlap, Bytes;
    var p, value := r.point, AddressOf(exports, loads, r.name);
    var place := places[p.chunk];
    PatchKept(code, data, loads, places, log, done, r, value);
    var code', data' := PatchedChunk(code, place.kind.Code?, place.index, p.placeholder, value, p.opSize),
                        PatchedChunk(data, place.kind.Data?, place.index, p.placeholder, value, p.opSize);
    forall q | q in done + {r}
      ensures q.point.chunk in places && Reads(Bytes(code', data', places[q.point.chunk]), q.point, AddressOf(exports, loads, q.name))
    {
      OneCopyPatched(code, data, loads, places, p.chunk, p.placeholder, value, p.opSize, q.point.chunk);
      CopyLength(code, data, loads, places, p.chunk);
      if q == r {
        PatchReads(Bytes(code, data, place), p, value);
      } else if q.point.chunk == p.chunk {
        ReadsStill(Bytes(code, data, place), q.point, AddressOf(exports, loads, q.name), p, value);
      }
    }
  }

  lemma CopyLength(code: seq<Chunk>, data: seq<Chunk>, loads: map<nat, nat>, places: map<nat, Place>, id: nat)
    requires Placed(code, data, loads, places) && id in places
    ensures |Bytes(code, data, places[id])| == |places[id].bytes|
  {
  }

  lemma PatchReads(b: seq<Byte>, p: ResolvePoint, value: nat)
    requires p.placeholder + p.opSize <= |b|
    ensures Reads(Patched(b, p.placeholder, value, p.opSize), p, value)
  {
  }

  lemma IndexOfOwn(exports: seq<Export>, k: nat)
    requires UniqueNames(exports) && k < |exports|
    ensures IndexOf(exports, exports[k].name) == k
  {
  }

  /** The references of the first k exports and j points of the next, and the one after them. */
  lemma ReferenceNext(exports: seq<Export>, k: nat, j: nat)
    requires k < |exports| && j < |exports[k].points|
    ensures var e := exports[k];
            var done := References(exports[..k]) + PointsOf(e.name, e.points[..j]);
            && done <= References(exports) && Reference(e.name, e.points[j]) in References(exports)
            && References(exports[..k]) + PointsOf(e.name, e.points[..j + 1]) == done + {Reference(e.name, e.points[j])}
  {
    var e := exports[k];
    assert e.points[..j + 1] == e.points[..j] + [e.points[j]];
    forall r | r in References(exports[..k]) + PointsOf(e.name, e.points[..j + 1]) ensures r in References(exports) {
      ReferencesMember(exports[..k], r);
      ReferencesMember(exports, r);
      if r in PointsOf(e.name, e.points[..j + 1]) {
        assert exports[k].name == r.name && r.point in exports[k].points;
      } else {
        var i :| 0 <= i < k && exports[..k][i].name == r.name && r.point in exports[..k][i].points;
        assert exports[i].name == r.name && r.point in exports[i].points;
      }
    }
  }

  lemma ReferencesOfExport(exports: seq<Export>, k: nat)
    requires k < |exports|
    ensures References(exports[..k + 1]) == References(exports[..k]) + PointsOf(exports[k].name, exports[k].points)
  {
    assert exports[..k + 1][..k] == exports[..k];
  }

  /** The state of the chunks while the references in done have been resolved. */
  ghost predicate Resolving(code: seq<Chunk>, data: seq<Chunk>, loads: map<nat, nat>, places: map<nat, Place>,
                            refs: set<Reference>, done: set<Reference>, exports: seq<Export>, log: seq<Write>)
  {
    && Laid(code, data) && Placed(code, data, loads, places) && SoundReferences(refs, places) && done <= refs
    && Resolved(code, data, places, done, exports, loads) && Kept(code, data, places, log, done)
  }

  lemma ResolvingStarts(code: seq<Chunk>, data: seq<Chunk>, loads: map<nat, nat>, places: map<nat, Place>, exports: seq<Export>,
                        log: seq<Write>)
    requires Merged(code, data, loads, places, exports, log)
    ensures Resolving(code, data, loads, places, References(exports), {}, exports, log)
  {
    hide KeptIn;
  }

  /** The address of a placeholder finds the chunk that its reference lies in. */
  lemma ReferenceFound(code: seq<Chunk>, data: seq<Chunk>, loads: map<nat, nat>, places: map<nat, Place>,
                       refs: set<Reference>, done: set<Reference>, exports: seq<Export>, log: seq<Write>, r: Reference)
    requires Resolving(code, data, loads, places, refs, done, exports, log) && r in refs
    ensures r.point.chunk in places && !r.point.isRelative && OperandSize(r.point.opSize)
    ensures var place := places[r.point.chunk];
            && place.kind == r.point.segment
            && Find(Pick(code, data, place.kind), r.point.placeholder + LoadOf(loads, r.point.chunk)) == Some(place.index)
  {
    hide Resolved, Kept, Apart;
    var place := places[r.point.chunk];
    FindOwn(Pick(code, data, place.kind), r.point.placeholder + LoadOf(loads, r.point.chunk), place.index, 0);
  }

  lemma ResolvingNext(code: seq<Chunk>, data: seq<Chunk>, loads: map<nat, nat>, places: map<nat, Place>,
                      refs: set<Reference>, done: set<Reference>, exports: seq<Export>, log: seq<Write>, r: Reference)
    requires Resolving(code, data, loads, places, refs, done, exports, log) && r in refs
    ensures r.point.chunk in places
    ensures var place := places[r.point.chunk]; var value := AddressOf(exports, loads, r.name); var p := r.point;
            && place.index < |Pick(code, data, place.kind)|
            && p.placeholder + p.opSize <= |Pick(code, data, place.kind)[place.index].data|
            && var code', data' := PatchedChunk(code, place.kind.Code?, place.index, p.placeholder, value, p.opSize),
                                   PatchedChunk(data, place.kind.Data?, place.index, p.placeholder, value, p.opSize);
            && SameLayout(code, code') && SameLayout(data, data')
            && Resolving(code', data', loads, places, refs, done + {r}, exports, log)
  {
    PatchNext(code, data, loads, places, refs, done, r, exports, log);
    var place := places[r.point.chunk]; var value := AddressOf(exports, loads, r.name); var p := r.point;
    var code', data' := PatchedChunk(code, place.kind.Code?, place.index, p.placeholder, value, p.opSize),
                        PatchedChunk(data, place.kind.Data?, place.index, p.placeholder, value, p.opSize);
    hide *;
    SameLaid(code, data, code', data');
    SamePlaced(code, data, code', data', loads, places);
    assert Resolving(code', data', loads, places, refs, done + {r}, exports, log) by {
      ResolvingFolds(code', data', loads, places, refs, done + {r}, exports, log);
    }
  }

  lemma ResolvingFolds(code: seq<Chunk>, data: seq<Chunk>, loads: map<nat, nat>, places: map<nat, Place>,
                       refs: set<Reference>, done: set<Reference>, exports: seq<Export>, log: seq<Write>)
    requires Laid(code, data) && Placed(code, data, loads, places) && SoundReferences(refs, places) && done <= refs
    requires Resolved(code, data, places, done, exports, loads) && Kept(code, data, places, log, done)
    ensures Resolving(code, data, loads, places, refs, done, exports, log)
  {
  }

  lemma NoReferences(exports: seq<Export>)
    ensures References(exports[..0]) == {}
  {
  }

  lemma NoPoints(name: string)
    ensures PointsOf(name, []) == {}
  {
  }

  lemma OwnAddress(exports: seq<Export>, loads: map<nat, nat>, k: nat)
    requires UniqueNames(exports) && k < |exports| && exports[k].orig.Some?
    ensures AddressOf(exports, loads, exports[k].name)
            == exports[k].orig.value.relativeAddress + LoadOf(loads, exports[k].orig.value.chunk)
  {
    IndexOfOwn(exports, k);
  }

  /** Patching moves nothing. */
  lemma StillMerged(code: seq<Chunk>, data: seq<Chunk>, code': seq<Chunk>, data': seq<Chunk>, loads: map<nat, nat>,
                    places: map<nat, Place>, exports: seq<Export>, log: seq<Write>)
    requires Merged(code, data, loads, places, exports, log) && SameLayout(code, code') && SameLayout(data, data')
    ensures Laid(code', data') && Placed(code', data', loads, places) && AllOwned(code', data', places)
  {
    SameLaid(code, data, code', data');
    SamePlaced(code, data, code', data', loads, places);
    SameOwned(code, data, code', data', places);
  }

  /**
   A local point is patched at its absolute address, taken as an offset into its chunk. The
   placeholder, which holds zeros, then reads as the address exactly when the chunk loads at 0.
   */
  lemma LocalPointRight(b: seq<Byte>, load: nat, p: ResolvePoint, value: nat)
    requires p.placeholder + load + p.opSize <= |b|
    requires forall j :: p.placeholder <= j < p.placeholder + p.opSize ==> b[j] == 0
    requires value % Pow(0x100, p.opSize) != 0
    ensures Reads(Patched(b, p.placeholder + load, value, p.opSize), p, value) <==> load == 0
  {
    var b' := Patched(b, p.placeholder + load, value, p.opSize);
    var number := BigEndian(value, p.opSize);
    if load > 0 && Reads(b', p, value) {
      forall i | 0 <= i < p.opSize ensures number[i] == 0 {
        ShiftedZero(b, load, p, value, i);
      }
      ZerosRead(number);
      ReadsBack(value, p.opSize);
    }
  }

  lemma {:induction false} ShiftedZero(b: seq<Byte>, load: nat, p: ResolvePoint, value: nat, i: nat)
    requires p.placeholder + load + p.opSize <= |b| && load > 0 && i < p.opSize
    requires forall j :: p.placeholder <= j < p.placeholder + p.opSize ==> b[j] == 0
    requires Reads(Patched(b, p.placeholder + load, value, p.opSize), p, value)
    ensures BigEndian(value, p.opSize)[i] == 0
  {
    hide BigEndian;
    var b', number := Patched(b, p.placeholder + load, value, p.opSize), BigEndian(value, p.opSize);
    assert number[i] == b'[p.placeholder..p.placeholder + p.opSize][i] == b'[p.placeholder + i];
    if i >= load {
      ShiftedZero(b, load, p, value, i - load);
      assert b'[p.placeholder + i] == b'[p.placeholder + load..p.placeholder + load + p.opSize][i - load];
    }
  }

  lemma {:induction false} ZerosRead(s: seq<Byte>)
    requires forall i :: 0 <= i < |s| ==> s[i] == 0
    ensures FromBigEndian(s) == 0
  {
    if |s| > 0 {
      ZerosRead(s[..|s| - 1]);
    }
  }
}
