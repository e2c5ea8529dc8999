/** The final image: the chunks of a linked program in one byte string. */
module Image {
  import opened Basics
  import opened Layout
  import opened Numbers
  import opened Powers
  import opened Merging
  import opened Resolving

  predicate Clear(a: Chunk, b: Chunk)
  {
    a.EndAddress() <= b.load || b.EndAddress() <= a.load
  }

  ghost predicate AllClear(chunks: seq<Chunk>)
  {
    forall i, j :: 0 <= i < j < |chunks| ==> Clear(chunks[i], chunks[j])
  }

  lemma LaidIsClear(code: seq<Chunk>, data: seq<Chunk>)
    requires Laid(code, data)
    ensures AllClear(code + data)
  {
  }

  lemma ClearPrefix(chunks: seq<Chunk>, n: nat)
    requires AllClear(chunks) && n <= |chunks|
    ensures AllClear(chunks[..n])
  {
  }

  predicate Shown(image: seq<Byte>, chunk: Chunk)
  {
    chunk.EndAddress() <= |image| && image[chunk.load..chunk.EndAddress()] == chunk.data
  }

  ghost predicate Shows(image: seq<Byte>, chunks: seq<Chunk>)
  {
    forall k :: 0 <= k < |chunks| ==> Shown(image, chunks[k])
  }

  predicate Under(chunks: seq<Chunk>, a: nat)
  {
    exists k :: 0 <= k < |chunks| && chunks[k].load <= a < chunks[k].EndAddress()
  }

  /** Nothing but zeros where no chunk lies. */
  ghost predicate Blank(image: seq<Byte>, chunks: seq<Chunk>)
  {
    forall a :: 0 <= a < |image| && !Under(chunks, a) ==> image[a] == 0
  }

  lemma ShownStill(image: seq<Byte>, earlier: Chunk, chunk: Chunk)
    requires Shown(image, earlier) && Clear(earlier, chunk) && chunk.EndAddress() <= |image|
    ensures Shown(Overlay(image, chunk.load, chunk.data), earlier)
  {
    var next := Overlay(image, chunk.load, chunk.data);
    assert next[earlier.load..earlier.EndAddress()] == image[earlier.load..earlier.EndAddress()];
  }

  /** Copying a chunk that is clear of the others adds it to the image and takes nothing away. */
  lemma CopyNext(image: seq<Byte>, chunks: seq<Chunk>, chunk: Chunk)
    requires Shows(image, chunks) && Blank(image, chunks) && AllClear(chunks + [chunk]) && chunk.EndAddress() <= |image|
    ensures Shows(Overlay(image, chunk.load, chunk.data), chunks + [chunk])
    ensures Blank(Overlay(image, chunk.load, chunk.data), chunks + [chunk])
  {
    hide Shown, Clear, Under;
    var all := chunks + [chunk];
    var next := Overlay(image, chunk.load, chunk.data);
    forall k | 0 <= k < |all| ensures Shown(next, all[k]) {
      if k < |chunks| {
        assert Clear(all[k], all[|chunks|]);
        ShownStill(image, all[k], chunk);
      } else {
        CopyShown(image, chunk);
      }
    }
    forall a | 0 <= a < |next| && !Under(all, a) ensures next[a] == 0 {
      UnderMore(chunks, chunk, a);
    }
  }

  lemma CopyShown(image: seq<Byte>, chunk: Chunk)
    requires chunk.EndAddress() <= |image|
    ensures Shown(Overlay(image, chunk.load, chunk.data), chunk)
  {
  }

  lemma UnderMore(chunks: seq<Chunk>, chunk: Chunk, a: nat)
    ensures Under(chunks + [chunk], a) <==> Under(chunks, a) || chunk.load <= a < chunk.EndAddress()
  {
    var all := chunks + [chunk];
    if Under(chunks, a) {
      var k :| 0 <= k < |chunks| && chunks[k].load <= a < chunks[k].EndAddress();
      assert all[k] == chunks[k];
    }
    if chunk.load <= a < chunk.EndAddress() {
      assert all[|chunks|] == chunk;
    }
  }

  lemma NothingUnder(size: nat)
    ensures Shows(seq(size, _ => 0), []) && Blank(seq(size, _ => 0), [])
  {
  }

  /** Every copy is in the image, at its load address. */
  ghost predicate CopiesShown(image: seq<Byte>, code: seq<Chunk>, data: seq<Chunk>, loads: map<nat, nat>, places: map<nat, Place>)
  {
    forall id :: id in places ==> id in loads && CopyShownAt(image, loads[id], Bytes(code, data, places[id]))
  }

  predicate CopyShownAt(image: seq<Byte>, load: nat, b: seq<Byte>)
  {
    load + |b| <= |image| && image[load..load + |b|] == b
  }

  lemma CopiesAreShown(image: seq<Byte>, code: seq<Chunk>, data: seq<Chunk>, loads: map<nat, nat>, places: map<nat, Place>)
    requires Placed(code, data, loads, places) && Shows(image, code + data)
    ensures CopiesShown(image, code, data, loads, places)
  {
    forall id | id in places ensures CopyShownAt(image, loads[id], Bytes(code, data, places[id])) {
      var place := places[id];
      var k := if place.kind.Code? then place.index else |code| + place.index;
      assert Shown(image, (code + data)[k]);
    }
  }

  /** The addresses at which a unit's chunk lies. */
  predicate Lies(loads: map<nat, nat>, places: map<nat, Place>, id: nat, a: nat)
  {
    id in loads && id in places && loads[id] <= a < loads[id] + |places[id].bytes|
  }

  lemma UnderACopy(code: seq<Chunk>, data: seq<Chunk>, loads: map<nat, nat>, places: map<nat, Place>, a: nat)
    requires Placed(code, data, loads, places) && AllOwned(code, data, places) && Under(code + data, a)
    ensures exists id :: id in places && Lies(loads, places, id, a)
  {
    var k :| 0 <= k < |code + data| && (code + data)[k].load <= a < (code + data)[k].EndAddress();
    var kind, index := if k < |code| then Code else Data, if k < |code| then k else k - |code|;
    assert Owned(places, kind, index);
    var id :| id in places && places[id].kind == kind && places[id].index == index;
    assert Lies(loads, places, id, a);
  }

  lemma BlankElsewhere(image: seq<Byte>, code: seq<Chunk>, data: seq<Chunk>, loads: map<nat, nat>, places: map<nat, Place>, a: nat)
    requires Placed(code, data, loads, places) && AllOwned(code, data, places) && Blank(image, code + data)
    requires a < |image| && forall id :: id in places ==> !Lies(loads, places, id, a)
    ensures image[a] == 0
  {
    if Under(code + data, a) { UnderACopy(code, data, loads, places, a); }
  }

  /** No two units' chunks overlap. */
  lemma CopiesDisjoint(code: seq<Chunk>, data: seq<Chunk>, loads: map<nat, nat>, places: map<nat, Place>, a: nat, b: nat)
    requires Laid(code, data) && Placed(code, data, loads, places) && a in places && b in places && a != b
    ensures a in loads && b in loads
    ensures loads[a] + |places[a].bytes| <= loads[b] || loads[b] + |places[b].bytes| <= loads[a]
  {
    var x, y := Pick(code, data, places[a].kind)[places[a].index], Pick(code, data, places[b].kind)[places[b].index];
    assert Clear(x, y);
  }

  ghost predicate ElsewhereBlank(image: seq<Byte>, loads: map<nat, nat>, places: map<nat, Place>)
  {
    forall a :: 0 <= a < |image| && (forall id :: id in places ==> !Lies(loads, places, id, a)) ==> image[a] == 0
  }

  /** A byte of a unit's chunk is in the image where the chunk lies. */
  predicate ByteAt(image: seq<Byte>, load: nat, bytes: seq<Byte>, j: nat)
  {
    load + j < |image| && j < |bytes| && image[load + j] == bytes[j]
  }

  /** A number stands in the image. */
  predicate NumberAt(image: seq<Byte>, at: nat, value: nat, size: nat)
  {
    at + size <= |image| && image[at..at + size] == BigEndian(value, size)
  }

  /**
   What the linker is for: every chunk is at its address, every placeholder in it holds the
   address of its symbol, the rest is as the unit had it after its local relocation, and nothing
   else is in the image.
   */
  ghost predicate LinkedImage(image: seq<Byte>, loads: map<nat, nat>, places: map<nat, Place>, exports: seq<Export>,
                              log: seq<Write>)
  {
    && ElsewhereBlank(image, loads, places)
    && (forall id, j :: id in places && 0 <= j < |places[id].bytes| && !Covered(References(exports), id, j) ==>
          ByteAt(image, LoadOf(loads, id), Local(places[id], log), j))
    && (forall r :: r in References(exports) ==>
          NumberAt(image, LoadOf(loads, r.point.chunk) + r.point.placeholder, AddressOf(exports, loads, r.name), r.point.opSize))
  }

  lemma SliceOfSlice(s: seq<Byte>, a: nat, b: nat, c: nat, d: nat)
    requires a <= b <= |s| && c <= d <= b - a
    ensures s[a..b][c..d] == s[a + c..a + d]
  {
    var x, y := s[a..b][c..d], s[a + c..a + d];
    assert |x| == |y|;
    assert forall i :: 0 <= i < |x| ==> x[i] == y[i];
  }

  lemma NumberShows(image: seq<Byte>, load: nat, b: seq<Byte>, p: ResolvePoint, value: nat)
    requires CopyShownAt(image, load, b) && Reads(b, p, value)
    ensures NumberAt(image, load + p.placeholder, value, p.opSize)
  {
    hide BigEndian;
    SliceOfSlice(image, load, load + |b|, p.placeholder, p.placeholder + p.opSize);
  }

  lemma ByteShows(image: seq<Byte>, load: nat, b: seq<Byte>, bytes: seq<Byte>, j: nat)
    requires CopyShownAt(image, load, b) && |b| == |bytes| && j < |b| && b[j] == bytes[j]
    ensures ByteAt(image, load, bytes, j)
  {
    assert image[load..load + |b|][j] == image[load + j];
  }

  lemma ImageIsLinked(image: seq<Byte>, code: seq<Chunk>, data: seq<Chunk>, loads: map<nat, nat>, places: map<nat, Place>, exports: seq<Export>,
                      log: seq<Write>)
    requires Resolving.Resolving(code, data, loads, places, References(exports), References(exports), exports, log)
    requires AllOwned(code, data, places) && Shows(image, code + data) && Blank(image, code + data)
    ensures LinkedImage(image, loads, places, exports, log)
  {
    hide AllOwned, Shows, Blank, References, Laid, Local, AddressOf, Reads, CopyShownAt, NumberAt, ByteAt, Lies;
    CopiesAreShown(image, code, data, loads, places);
    forall r | r in References(exports)
      ensures NumberAt(image, LoadOf(loads, r.point.chunk) + r.point.placeholder, AddressOf(exports, loads, r.name), r.point.opSize)
    {
      var id := r.point.chunk;
      NumberShows(image, loads[id], Bytes(code, data, places[id]), r.point, AddressOf(exports, loads, r.name));
    }
    forall id, j | id in places && 0 <= j < |places[id].bytes| && !Covered(References(exports), id, j)
      ensures ByteAt(image, LoadOf(loads, id), Local(places[id], log), j)
    {
      assert KeptIn(Bytes(code, data, places[id]), Local(places[id], log), References(exports), id);
      ByteShows(image, loads[id], Bytes(code, data, places[id]), Local(places[id], log), j);
    }
    forall a | 0 <= a < |image| && (forall id :: id in places ==> !Lies(loads, places, id, a)) ensures image[a] == 0 {
      BlankElsewhere(image, code, data, loads, places, a);
    }
  }

  /** A resolved placeholder reads back as the exporter's address, as far as the operand is wide. */
  lemma PlaceholderReadsBack(image: seq<Byte>, loads: map<nat, nat>, places: map<nat, Place>, exports: seq<Export>,
                              log: seq<Write>, r: Reference)
    requires LinkedImage(image, loads, places, exports, log) && r in References(exports)
    ensures var at := LoadOf(loads, r.point.chunk) + r.point.placeholder;
            && at + r.point.opSize <= |image|
            && FromBigEndian(image[at..at + r.point.opSize]) == AddressOf(exports, loads, r.name) % Pow(0x100, r.point.opSize)
  {
    hide References, AddressOf, BigEndian, FromBigEndian, ByteAt, Local, Covered, ElsewhereBlank;
    ReadsBack(AddressOf(exports, loads, r.name), r.point.opSize);
  }

  /** In terms of the exporting unit: the symbol's offset in its chunk, behind the address of that chunk. */
  lemma ExportReadsBack(image: seq<Byte>, loads: map<nat, nat>, places: map<nat, Place>, exports: seq<Export>,
                        log: seq<Write>, r: Reference, k: nat)
    requires LinkedImage(image, loads, places, exports, log) && r in References(exports) && UniqueNames(exports)
    requires k < |exports| && exports[k].name == r.name && exports[k].orig.Some?
    requires r.point.chunk in loads && exports[k].orig.value.chunk in loads
    ensures var at, size, symbol := loads[r.point.chunk] + r.point.placeholder, r.point.opSize, exports[k].orig.value;
            && at + size <= |image|
            && FromBigEndian(image[at..at + size]) == (loads[symbol.chunk] + symbol.relativeAddress) % Pow(0x100, size)
  {
    hide References, AddressOf, BigEndian, FromBigEndian, LinkedImage, UniqueNames, Pow;
    PlaceholderReadsBack(image, loads, places, exports, log, r);
    OwnAddress(exports, loads, k);
  }
}
