/** The bookkeeping of a merge over whole segments and units. */
module Units {
  import opened Basics
  import opened Layout
  import opened Merging

  function Ids(chunks: seq<UnitChunk>): set<nat>
  {
    set c | c in chunks :: c.id
  }

  predicate DistinctIds(chunks: seq<UnitChunk>)
  {
    forall i, j :: 0 <= i < j < |chunks| ==> chunks[i].id != chunks[j].id
  }

  ghost function AllWanted(imports: seq<Import>, chunks: seq<UnitChunk>): set<Reference>
  {
    if |chunks| == 0 then {}
    else AllWanted(imports, chunks[..|chunks| - 1]) + Wanted(imports, chunks[|chunks| - 1].id)
  }

  /** The first n chunks of a unit's segment have been merged into places. */
  ghost predicate Took(before: map<nat, Place>, after: map<nat, Place>, kind: SegmentType, chunks: seq<UnitChunk>)
  {
    && after.Keys == before.Keys + Ids(chunks)
    && (forall id :: id in before ==> after[id] == before[id])
    && (forall i :: 0 <= i < |chunks| ==> after[chunks[i].id].kind == kind && after[chunks[i].id].bytes == chunks[i].bytes)
  }

  lemma TookNone(before: map<nat, Place>, kind: SegmentType)
    ensures Took(before, before, kind, [])
  {
    assert Ids([]) == {};
  }

  lemma TookNext(before: map<nat, Place>, after: map<nat, Place>, kind: SegmentType, chunks: seq<UnitChunk>, i: nat, index: nat)
    requires i < |chunks| && DistinctIds(chunks) && Took(before, after, kind, chunks[..i]) && chunks[i].id !in before
    ensures chunks[i].id !in after
    ensures Took(before, after[chunks[i].id := Place(kind, index, chunks[i].bytes)], kind, chunks[..i + 1])
  {
    var last := chunks[i];
    assert chunks[..i + 1] == chunks[..i] + [last];
    assert Ids(chunks[..i + 1]) == Ids(chunks[..i]) + {last.id};
    forall c | c in chunks[..i] ensures c.id != last.id {
      var j :| 0 <= j < i && chunks[j] == c;
    }
  }

  lemma NotTaken(before: map<nat, Place>, after: map<nat, Place>, kind: SegmentType, chunks: seq<UnitChunk>, i: nat)
    requires i < |chunks| && DistinctIds(chunks) && Took(before, after, kind, chunks[..i]) && chunks[i].id !in before
    ensures chunks[i].id !in after
  {
    TookNext(before, after, kind, chunks, i, 0);
  }

  lemma AllWantedNext(imports: seq<Import>, chunks: seq<UnitChunk>, i: nat)
    requires i < |chunks|
    ensures AllWanted(imports, chunks[..i + 1]) == AllWanted(imports, chunks[..i]) + Wanted(imports, chunks[i].id)
  {
    assert chunks[..i + 1][..i] == chunks[..i];
  }

  function UnitIds(unit: CompileUnit): set<nat>
  {
    Ids(unit.code) + Ids(unit.data)
  }

  function IdsOf(units: seq<CompileUnit>): set<nat>
  {
    if |units| == 0 then {} else IdsOf(units[..|units| - 1]) + UnitIds(units[|units| - 1])
  }

  /** The references of all units. */
  ghost function WantedBy(units: seq<CompileUnit>): set<Reference>
  {
    if |units| == 0 then {}
    else
      var last := units[|units| - 1];
      WantedBy(units[..|units| - 1]) + AllWanted(last.imports, last.code) + AllWanted(last.imports, last.data)
  }

  /** The import waits for this symbol at this place, which lies in one of these chunks. */
  ghost predicate Asks(imported: Import, chunks: seq<UnitChunk>, x: Reference)
  {
    && imported.name == x.name && x.point in imported.points && !x.point.isRelative
    && exists c :: c in chunks && c.id == x.point.chunk
  }

  lemma {:induction false} WantedAsks(imports: seq<Import>, c: UnitChunk, x: Reference)
    ensures x in Wanted(imports, c.id) <==> exists i :: 0 <= i < |imports| && Asks(imports[i], [c], x)
  {
    if |imports| > 0 {
      var n := |imports| - 1;
      WantedAsks(imports[..n], c, x);
      assert forall i :: 0 <= i < n ==> imports[..n][i] == imports[i];
      assert c in [c];
    }
  }

  lemma {:induction false} AllWantedAsks(imports: seq<Import>, chunks: seq<UnitChunk>, x: Reference)
    ensures x in AllWanted(imports, chunks) <==> exists i :: 0 <= i < |imports| && Asks(imports[i], chunks, x)
  {
    hide Wanted;
    if |chunks| > 0 {
      var n := |chunks| - 1;
      AllWantedAsks(imports, chunks[..n], x);
      WantedAsks(imports, chunks[n], x);
      forall i | 0 <= i < |imports|
        ensures Asks(imports[i], chunks, x) <==> Asks(imports[i], chunks[..n], x) || Asks(imports[i], [chunks[n]], x)
      {
        AsksLast(imports[i], chunks, x);
      }
    }
  }

  lemma AsksLast(imported: Import, chunks: seq<UnitChunk>, x: Reference)
    requires |chunks| > 0
    ensures var n := |chunks| - 1; Asks(imported, chunks, x) <==> Asks(imported, chunks[..n], x) || Asks(imported, [chunks[n]], x)
  {
    var n := |chunks| - 1;
    assert chunks == chunks[..n] + [chunks[n]];
  }

  /** A link resolves exactly the absolute points of its units' imports that lie in a chunk of their unit. */
  lemma {:induction false} WantedExactly(units: seq<CompileUnit>, x: Reference)
    ensures x in WantedBy(units) <==>
            exists u, i :: 0 <= u < |units| && 0 <= i < |units[u].imports|
                           && (Asks(units[u].imports[i], units[u].code, x) || Asks(units[u].imports[i], units[u].data, x))
  {
    hide AllWanted, Asks;
    if |units| > 0 {
      var n := |units| - 1;
      var last := units[n];
      WantedExactly(units[..n], x);
      AllWantedAsks(last.imports, last.code, x);
      AllWantedAsks(last.imports, last.data, x);
      assert forall u :: 0 <= u < n ==> units[..n][u] == units[u];
    }
  }

  /** What a compiler hands over: chunks of its own, with sound placeholders. */
  ghost predicate SoundUnit(unit: CompileUnit)
  {
    && DistinctIds(unit.code) && DistinctIds(unit.data) && Ids(unit.code) !! Ids(unit.data)
    && SoundChunks(unit.imports, Code, unit.code) && SoundChunks(unit.imports, Data, unit.data) && SizedPoints(unit.identifiers)
  }

  ghost predicate SoundUnits(units: seq<CompileUnit>)
  {
    forall u :: 0 <= u < |units| ==> SoundUnit(units[u]) && UnitIds(units[u]) !! IdsOf(units[..u])
  }

  predicate Holds(places: map<nat, Place>, kind: SegmentType, chunks: seq<UnitChunk>)
  {
    forall i :: 0 <= i < |chunks| ==>
      var id := chunks[i].id;
      id in places && places[id].kind == kind && places[id].bytes == chunks[i].bytes
  }

  /** All chunks of a unit were merged. */
  predicate HoldsUnit(places: map<nat, Place>, unit: CompileUnit)
  {
    Holds(places, Code, unit.code) && Holds(places, Data, unit.data)
  }

  lemma TookHolds(before: map<nat, Place>, after: map<nat, Place>, kind: SegmentType, chunks: seq<UnitChunk>)
    requires Took(before, after, kind, chunks)
    ensures Holds(after, kind, chunks)
  {
    forall i | 0 <= i < |chunks| ensures chunks[i].id in after {
      assert chunks[i] in chunks;
    }
  }

  lemma HoldsStill(before: map<nat, Place>, after: map<nat, Place>, kind: SegmentType, chunks: seq<UnitChunk>, other: SegmentType, others: seq<UnitChunk>)
    requires Took(before, after, other, others) && Holds(before, kind, chunks)
    ensures Holds(after, kind, chunks)
  {
  }

  lemma {:induction false} AllWantedPrefix(imports: seq<Import>, chunks: seq<UnitChunk>, n: nat)
    requires n <= |chunks|
    ensures AllWanted(imports, chunks[..n]) <= AllWanted(imports, chunks)
  {
    if n < |chunks| {
      AllWantedPrefix(imports, chunks[..|chunks| - 1], n);
      assert chunks[..|chunks| - 1][..n] == chunks[..n];
    } else {
      assert chunks[..n] == chunks;
    }
  }

  lemma IdsPrefix(chunks: seq<UnitChunk>, n: nat)
    requires n <= |chunks|
    ensures Ids(chunks[..n]) <= Ids(chunks)
  {
  }

  lemma NotYet(places: map<nat, Place>, ids: set<nat>, chunks: seq<UnitChunk>)
    requires places.Keys <= ids && Ids(chunks) !! ids
    ensures forall i :: 0 <= i < |chunks| ==> chunks[i].id !in places
  {
    forall i | 0 <= i < |chunks| ensures chunks[i].id !in places {
      assert chunks[i] in chunks;
    }
  }

  lemma StillNotYet(before: map<nat, Place>, mid: map<nat, Place>, unit: CompileUnit, n: nat)
    requires n <= |unit.code| && Took(before, mid, Code, unit.code[..n])
    requires before.Keys !! UnitIds(unit) && Ids(unit.code) !! Ids(unit.data)
    ensures forall i :: 0 <= i < |unit.data| ==> unit.data[i].id !in mid
  {
    IdsPrefix(unit.code, n);
    NotYet(mid, mid.Keys, unit.data);
  }

  lemma NextUnit(units: seq<CompileUnit>, u: nat)
    requires u < |units|
    ensures IdsOf(units[..u + 1]) == IdsOf(units[..u]) + UnitIds(units[u])
    ensures WantedBy(units[..u + 1]) == WantedBy(units[..u]) + AllWanted(units[u].imports, units[u].code) + AllWanted(units[u].imports, units[u].data)
  {
    assert units[..u + 1][..u] == units[..u];
  }

  /** What merging a unit does to the bookkeeping, whether or not something of it was lost on the way. */
  ghost predicate TookUnit(before: map<nat, Place>, after: map<nat, Place>, was: set<Reference>, now: set<Reference>,
                           unit: CompileUnit, lost: bool)
  {
    var wanted := AllWanted(unit.imports, unit.code) + AllWanted(unit.imports, unit.data);
    && before.Keys <= after.Keys <= before.Keys + UnitIds(unit) && was <= now <= was + wanted
    && (forall id :: id in before ==> after[id] == before[id])
    && (!lost ==> after.Keys == before.Keys + UnitIds(unit) && HoldsUnit(after, unit) && now == was + wanted)
  }

  /** What is there after a step: all that was wanted, unless a relocation failed. */
  ghost predicate Gained<T>(was: set<T>, now: set<T>, wanted: set<T>, lost: bool)
  {
    was <= now <= was + wanted && (!lost ==> now == was + wanted)
  }

  lemma GainedNext(was: set<Reference>, now: set<Reference>, imports: seq<Import>, chunks: seq<UnitChunk>, n: nat,
                   lost: bool, more: set<Reference>, losing: bool)
    requires n < |chunks| && Gained(was, now, AllWanted(imports, chunks[..n]), lost)
    requires Gained(now, more, Wanted(imports, chunks[n].id), losing)
    ensures Gained(was, more, AllWanted(imports, chunks[..n + 1]), lost || losing)
  {
    hide Wanted, AllWanted;
    AllWantedNext(imports, chunks, n);
  }

  lemma GainedNone(was: set<Reference>, imports: seq<Import>, chunks: seq<UnitChunk>)
    ensures Gained(was, was, AllWanted(imports, chunks[..0]), false)
  {
  }

  /** The symbols that a unit's chunks import: all of the unit's, as soon as there is a chunk. */
  ghost function NamesFor(imports: seq<Import>, chunks: seq<UnitChunk>): set<string>
  {
    if |chunks| == 0 then {} else ImportNames(imports)
  }

  ghost function UnitNames(unit: CompileUnit): set<string>
  {
    NamesFor(unit.imports, unit.code) + NamesFor(unit.imports, unit.data)
  }

  ghost function NamesOf(units: seq<CompileUnit>): set<string>
  {
    if |units| == 0 then {} else NamesOf(units[..|units| - 1]) + UnitNames(units[|units| - 1])
  }

  lemma NamesNone(was: set<string>, imports: seq<Import>, chunks: seq<UnitChunk>)
    ensures Gained(was, was, NamesFor(imports, chunks[..0]), false)
  {
  }

  lemma NamesNoUnits(was: set<string>, units: seq<CompileUnit>)
    ensures Gained(was, was, NamesOf(units[..0]), false)
  {
  }

  lemma GainedLess<T>(was: set<T>, now: set<T>, wanted: set<T>, lost: bool)
    requires Gained(was, now, wanted, lost)
    ensures Gained(was, now, wanted, true)
  {
  }

  lemma AllGained<T>(was: set<T>, now: set<T>, wanted: set<T>, lost: bool)
    requires Gained(was, now, wanted, lost)
    ensures !lost ==> (now <= was <==> wanted <= was)
  {
  }

  lemma NamesNext(was: set<string>, now: set<string>, more: set<string>, imports: seq<Import>, chunks: seq<UnitChunk>, n: nat,
                  lost: bool, losing: bool)
    requires n < |chunks| && Gained(was, now, NamesFor(imports, chunks[..n]), lost) && Gained(now, more, ImportNames(imports), losing)
    ensures Gained(was, more, NamesFor(imports, chunks[..n + 1]), lost || losing)
  {
    hide ImportNames;
  }

  lemma NamesBoth(was: set<string>, mid: set<string>, now: set<string>, unit: CompileUnit, n: nat, m: nat, lostCode: bool, lostData: bool)
    requires n <= |unit.code| && m <= |unit.data|
    requires Gained(was, mid, NamesFor(unit.imports, unit.code[..n]), lostCode)
    requires Gained(mid, now, NamesFor(unit.imports, unit.data[..m]), lostData)
    ensures Gained(was, now, UnitNames(unit), n < |unit.code| || m < |unit.data| || lostCode || lostData)
  {
    hide ImportNames;
    if n == |unit.code| && m == |unit.data| {
      assert unit.code[..n] == unit.code && unit.data[..m] == unit.data;
    }
  }

  lemma NamesNextUnit(was: set<string>, mid: set<string>, now: set<string>, units: seq<CompileUnit>, u: nat, lost: bool, losing: bool)
    requires u < |units| && Gained(was, mid, NamesOf(units[..u]), lost) && Gained(mid, now, UnitNames(units[u]), losing)
    ensures Gained(was, now, NamesOf(units[..u + 1]), lost || losing)
  {
    hide UnitNames;
    assert units[..u + 1][..u] == units[..u];
  }

  predicate AllDefined(exports: seq<Export>)
  {
    forall k :: 0 <= k < |exports| ==> exports[k].orig.Some?
  }

  /** All exports are defined when the known ones are and no other name was imported. */
  lemma DefinedBefore(before: seq<Export>, after: seq<Export>)
    requires Joined(before, after)
    ensures AllDefined(after) <==> AllDefined(before) && Names(after) <= Names(before)
  {
    if |before| < |after| {
      var e := after[|before|];
      assert e in after && e.orig == None;
      forall b | b in before ensures b.name != e.name {
        var k :| 0 <= k < |before| && before[k] == b;
        assert after[k].name == b.name;
      }
      assert e.name in Names(after) && e.name !in Names(before);
    } else {
      SameNames(after, before);
      assert forall k :: 0 <= k < |before| ==> before[k].orig == after[k].orig;
    }
  }

  lemma TookBoth(before: map<nat, Place>, mid: map<nat, Place>, after: map<nat, Place>, unit: CompileUnit, n: nat, m: nat,
                 was: set<Reference>, since: set<Reference>, now: set<Reference>, lostCode: bool, lostData: bool)
    requires n <= |unit.code| && m <= |unit.data|
    requires Took(before, mid, Code, unit.code[..n]) && Took(mid, after, Data, unit.data[..m])
    requires Gained(was, since, AllWanted(unit.imports, unit.code[..n]), lostCode)
    requires Gained(since, now, AllWanted(unit.imports, unit.data[..m]), lostData)
    ensures TookUnit(before, after, was, now, unit, n < |unit.code| || m < |unit.data| || lostCode || lostData)
  {
    hide Holds, AllWanted, Ids;
    AllWantedPrefix(unit.imports, unit.code, n);
    AllWantedPrefix(unit.imports, unit.data, m);
    IdsPrefix(unit.code, n);
    IdsPrefix(unit.data, m);
    TookHolds(before, mid, Code, unit.code[..n]);
    HoldsStill(mid, after, Code, unit.code[..n], Data, unit.data[..m]);
    TookHolds(mid, after, Data, unit.data[..m]);
    if n == |unit.code| && m == |unit.data| {
      assert unit.code[..n] == unit.code && unit.data[..m] == unit.data;
    }
  }

  /** What merging all units does to the bookkeeping. */
  ghost predicate TookUnits(places: map<nat, Place>, refs: set<Reference>, units: seq<CompileUnit>, lost: bool)
  {
    && places.Keys <= IdsOf(units) && refs <= WantedBy(units)
    && (!lost ==> places.Keys == IdsOf(units) && refs == WantedBy(units)
                     && forall u :: 0 <= u < |units| ==> HoldsUnit(places, units[u]))
  }

  lemma TookNextUnit(before: map<nat, Place>, after: map<nat, Place>, was: set<Reference>, now: set<Reference>,
                     units: seq<CompileUnit>, u: nat, lost: bool, losing: bool)
    requires u < |units| && TookUnits(before, was, units[..u], lost) && TookUnit(before, after, was, now, units[u], losing)
    ensures TookUnits(after, now, units[..u + 1], lost || losing)
  {
    hide AllWanted, UnitIds, IdsOf, WantedBy;
    NextUnit(units, u);
    if !lost && !losing {
      var seen := units[..u + 1];
      forall v | 0 <= v < |seen| ensures HoldsUnit(after, seen[v]) {
        if v < u {
          assert HoldsUnit(before, units[..u][v]);
        }
      }
    }
  }

  lemma TookNoUnits(places: map<nat, Place>, refs: set<Reference>, units: seq<CompileUnit>)
    requires places == map[] && refs == {}
    ensures TookUnits(places, refs, units[..0], false)
  {
  }

  lemma FreshUnit(places: map<nat, Place>, refs: set<Reference>, units: seq<CompileUnit>, u: nat, lost: bool)
    requires u < |units| && SoundUnits(units) && TookUnits(places, refs, units[..u], lost)
    ensures SoundUnit(units[u]) && places.Keys !! UnitIds(units[u])
  {
  }

  /** The sizes of the local points are operand sizes. */
  predicate SizedPoints(identifiers: seq<LocalIdentifier>)
  {
    forall i, j :: 0 <= i < |identifiers| && 0 <= j < |identifiers[i].points| ==> OperandSize(identifiers[i].points[j].opSize)
  }

  lemma SizedOne(identifiers: seq<LocalIdentifier>, i: nat)
    requires SizedPoints(identifiers) && i < |identifiers|
    ensures SizedPoints([identifiers[i]])
  {
    hide OperandSize;
  }

  /** The unit asks for no relocation of its own. */
  predicate NothingLocal(identifiers: seq<LocalIdentifier>)
  {
    forall i :: 0 <= i < |identifiers| ==> identifiers[i].points == []
  }

  predicate AllImported(units: seq<CompileUnit>)
  {
    forall u :: 0 <= u < |units| ==> NothingLocal(units[u].identifiers)
  }

  lemma OneGained<T>(was: set<T>, wanted: set<T>, lost: bool)
    ensures Gained(was, was + (if !lost then wanted else {}), wanted, lost)
  {
    assert was + {} == was;
  }

  lemma TookLess(before: map<nat, Place>, after: map<nat, Place>, was: set<Reference>, now: set<Reference>, unit: CompileUnit, lost: bool)
    requires TookUnit(before, after, was, now, unit, lost)
    ensures TookUnit(before, after, was, now, unit, true)
  {
  }

  lemma {:induction false} TookFewer(places: map<nat, Place>, refs: set<Reference>, units: seq<CompileUnit>, n: nat, lost: bool)
    requires n <= |units| && TookUnits(places, refs, units[..n], lost)
    ensures TookUnits(places, refs, units, true)
    decreases |units| - n
  {
    if n == |units| {
      assert units[..n] == units;
    } else {
      hide AllWanted, UnitIds, HoldsUnit, IdsOf, WantedBy;
      NextUnit(units, n);
      TookFewer(places, refs, units, n + 1, true);
    }
  }
}
