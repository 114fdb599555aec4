/** Saving and loading the voxel map of robot_brain/navigation/map_store.py. The file is its
    decoded payload, and the content hash an arbitrary function of the payload. */
module VoxelPersistence {
  import opened RealMath
  import opened Grid
  import opened Sorting
  import opened Frontier
  import opened VoxelContent
  import opened VoxelMap

  datatype Payload = Payload(schemaVersion: int, mapId: string, mapVersion: string, resolution: real, frameId: string,
                             maxVoxels: Option<int>, voxels: seq<seq<int>>, knownFree: seq<seq<int>>)

  datatype File = File(payload: Payload, contentHash: Option<string>)

  datatype Meta = Meta(resolution: real, mapId: string, mapVersion: string, maxVoxels: int)

  datatype Identity = Identity(mapId: string, version: string, revision: string, resolution: real, voxelCount: int)

  const SCHEMA_VERSION := 2
  const DEFAULT_MAX_VOXELS := 500000

  ghost predicate ValidMeta(meta: Meta) {
    meta.resolution > 0.0 && meta.maxVoxels > 0 && meta.mapId != "" && meta.mapVersion != ""
  }

  function VoxelRow(v: Voxel, count: int): seq<int> { [v.x, v.y, v.z, count] }

  function VoxelRows(hits: map<Voxel, int>, keys: seq<Voxel>): seq<seq<int>> {
    seq(|keys|, i requires 0 <= i < |keys| => VoxelRow(keys[i], Get(hits, keys[i])))
  }

  function CellRows(cells: seq<Cell>): seq<seq<int>> {
    seq(|cells|, i requires 0 <= i < |cells| => [cells[i].col, cells[i].row])
  }

  /** `_payload`: voxels and free cells in ascending order. */
  ghost function PayloadOf(meta: Meta, c: Content): Payload {
    VoxelNotAfterIsTotal();
    CellNotAfterIsTotal();
    Payload(SCHEMA_VERSION, meta.mapId, meta.mapVersion, meta.resolution, "map", Some(meta.maxVoxels),
            VoxelRows(c.hits, ListOf(VoxelNotAfter, c.hits.Keys)), CellRows(ListOf(CellNotAfter, c.free)))
  }

  ghost function IdentityOf(hash: Payload -> string, meta: Meta, c: Content): Identity {
    Identity(meta.mapId, meta.mapVersion, hash(PayloadOf(meta, c)), meta.resolution, |c.hits|)
  }

  /** The loop over the saved voxels: a later row overwrites an earlier one, a bad row is an error. */
  function ReadVoxels(rows: seq<seq<int>>): Result<map<Voxel, int>> {
    if rows == [] then Ok(map[])
    else
      var row := rows[|rows| - 1];
      match ReadVoxels(rows[..|rows| - 1])
      case Err(e) => Err(e)
      case Ok(hits) =>
        if |row| != 4 then Err("invalid native map voxel")
        else if row[3] <= 0 then Err("invalid native map hit count")
        else Ok(hits[Voxel(row[0], row[1], row[2]) := row[3]])
  }

  function ReadCells(rows: seq<seq<int>>): Result<set<Cell>> {
    if rows == [] then Ok({})
    else
      var row := rows[|rows| - 1];
      match ReadCells(rows[..|rows| - 1])
      case Err(e) => Err(e)
      case Ok(cells) =>
        if |row| != 2 then Err("invalid native map free cell") else Ok(cells + {Cell(row[0], row[1])})
  }

  function LoadedVersion(file: File): string
    requires file.contentHash.Some?
  {
    var expected := file.contentHash.value;
    if file.payload.schemaVersion == SCHEMA_VERSION then file.payload.mapVersion
    else "legacy-" + if |expected| < 16 then expected else expected[..16]
  }

  /** `load`: identity, bound and contents of the map, or the reason why there is none. Empty
      names are replaced by the fresh ones that the constructor would draw. */
  function Loaded(hash: Payload -> string, file: File, freshId: string, freshVersion: string): Result<(Meta, Content)> {
    var p := file.payload;
    if p.schemaVersion != 1 && p.schemaVersion != SCHEMA_VERSION then Err("unsupported native map schema")
    else if file.contentHash.None? || file.contentHash.value == "" || file.contentHash.value != hash(p)
    then Err("native map content hash mismatch")
    else if p.resolution <= 0.0 then Err("map resolution must be positive")
    else
      var bound := Max(if p.maxVoxels.Some? then p.maxVoxels.value else DEFAULT_MAX_VOXELS, |p.voxels|);
      if bound <= 0 then Err("max_voxels must be positive")
      else
        var version := LoadedVersion(file);
        var meta := Meta(p.resolution, if p.mapId == "" then freshId else p.mapId,
                         if version == "" then freshVersion else version, bound);
        match ReadVoxels(p.voxels)
        case Err(e) => Err(e)
        case Ok(hits) =>
          match ReadCells(p.knownFree)
          case Err(e) => Err(e)
          case Ok(free) => Ok((meta, Content(hits, map[], free)))
  }

  ghost function Saved(hash: Payload -> string, meta: Meta, c: Content): File {
    File(PayloadOf(meta, c), Some(hash(PayloadOf(meta, c))))
  }

  lemma {:induction false} ReadWrittenVoxels(hits: map<Voxel, int>, keys: seq<Voxel>)
    requires forall v :: v in keys ==> v in hits && hits[v] >= 1
    ensures ReadVoxels(VoxelRows(hits, keys)) == Ok(map v | v in keys :: hits[v])
  {
    if keys != [] {
      var init, last := keys[..|keys| - 1], keys[|keys| - 1];
      assert keys == init + [last];
      ReadWrittenVoxels(hits, init);
      assert VoxelRows(hits, keys)[..|keys| - 1] == VoxelRows(hits, init);
      var m := map v | v in init :: hits[v];
      assert (map v | v in keys :: hits[v]) == m[last := hits[last]];
    }
  }

  lemma {:induction false} ReadWrittenCells(cells: seq<Cell>)
    ensures ReadCells(CellRows(cells)) == Ok(Elements(cells))
  {
    if cells != [] {
      var init, last := cells[..|cells| - 1], cells[|cells| - 1];
      assert cells == init + [last];
      ReadWrittenCells(init);
      assert CellRows(cells)[..|cells| - 1] == CellRows(init);
      var row := CellRows(cells)[|cells| - 1];
      assert |row| == 2 && Cell(row[0], row[1]) == last;
      assert Elements(cells) == Elements(init) + {last};
      assert ReadCells(CellRows(cells)) == Ok(Elements(init) + {Cell(row[0], row[1])});
    } else {
      assert Elements(cells) == {};
    }
  }

  /** Loading what was saved restores the hits, the free cells, the bound and the whole identity,
      content revision included; only the miss counters start afresh. */
  lemma SaveLoadRoundTrip(hash: Payload -> string, meta: Meta, c: Content, freshId: string, freshVersion: string)
    requires ValidMeta(meta) && ValidContent(c, meta.maxVoxels)
    requires hash(PayloadOf(meta, c)) != ""
    ensures Loaded(hash, Saved(hash, meta, c), freshId, freshVersion) == Ok((meta, c.(misses := map[])))
    ensures IdentityOf(hash, meta, c.(misses := map[])) == IdentityOf(hash, meta, c)
  {
    VoxelNotAfterIsTotal();
    CellNotAfterIsTotal();
    var keys, cells := ListOf(VoxelNotAfter, c.hits.Keys), ListOf(CellNotAfter, c.free);
    ListOfIsStrict(VoxelNotAfter, c.hits.Keys);
    ListOfIsStrict(CellNotAfter, c.free);
    ReadWrittenVoxels(c.hits, keys);
    ReadWrittenCells(cells);
    assert (map v | v in keys :: c.hits[v]) == c.hits;
    assert Elements(cells) == c.free;
    ElementsSize(keys);
    assert Elements(keys) == c.hits.Keys;
    assert |keys| == |c.hits|;
  }

  /** A row of the file: the voxel's three coordinates and then its count. */
  predicate IsRowOf(row: seq<int>, v: Voxel, count: int) {
    |row| == 4 && row[0] == v.x && row[1] == v.y && row[2] == v.z && row[3] == count
  }

  predicate ComesBefore(a: seq<int>, b: seq<int>)
    requires |a| == |b| == 4
  {
    a[0] < b[0] || (a[0] == b[0] && (a[1] < b[1] || (a[1] == b[1] && a[2] < b[2])))
  }

  /** What a saved file holds: one row for every voxel, in the order of the coordinates, and one for every free column. */
  lemma FileHolds(hash: Payload -> string, meta: Meta, c: Content)
    ensures var p := Saved(hash, meta, c).payload;
      && p.schemaVersion == 2 && p.frameId == "map" && |p.voxels| == |c.hits| && |p.knownFree| == |c.free|
      && (forall i :: 0 <= i < |p.voxels| ==> |p.voxels[i]| == 4)
      && (forall i, j :: 0 <= i < j < |p.voxels| ==> ComesBefore(p.voxels[i], p.voxels[j]))
      && (forall v :: v in c.hits ==> exists i :: 0 <= i < |p.voxels| && IsRowOf(p.voxels[i], v, c.hits[v]))
      && (forall f :: f in c.free ==> [f.col, f.row] in p.knownFree)
  {
    VoxelNotAfterIsTotal();
    CellNotAfterIsTotal();
    var keys, cells := ListOf(VoxelNotAfter, c.hits.Keys), ListOf(CellNotAfter, c.free);
    ListOfIsStrict(VoxelNotAfter, c.hits.Keys);
    ListOfIsStrict(CellNotAfter, c.free);
    VoxelRowsHold(c.hits, keys);
    CellRowsHold(c.free, cells);
  }

  lemma VoxelRowsHold(hits: map<Voxel, int>, keys: seq<Voxel>)
    requires Strict(VoxelNotAfter, keys) && forall v :: v in keys <==> v in hits
    ensures var rows := VoxelRows(hits, keys);
      && |rows| == |hits| && (forall i :: 0 <= i < |rows| ==> |rows[i]| == 4)
      && (forall i, j :: 0 <= i < j < |rows| ==> ComesBefore(rows[i], rows[j]))
      && forall v :: v in hits ==> exists i :: 0 <= i < |rows| && IsRowOf(rows[i], v, hits[v])
  {
    var rows := VoxelRows(hits, keys);
    ElementsSize(keys);
    assert Elements(keys) == hits.Keys;
    forall v | v in hits ensures exists i :: 0 <= i < |rows| && IsRowOf(rows[i], v, hits[v]) {
      var i :| 0 <= i < |keys| && keys[i] == v;
      assert IsRowOf(rows[i], v, hits[v]);
    }
    forall i, j | 0 <= i < j < |rows| ensures ComesBefore(rows[i], rows[j]) {
      RowsInOrder(keys[i], hits[keys[i]], keys[j], hits[keys[j]]);
    }
  }

  lemma RowsInOrder(a: Voxel, m: int, b: Voxel, n: int)
    requires a != b && VoxelNotAfter(a, b)
    ensures ComesBefore(VoxelRow(a, m), VoxelRow(b, n))
  {
  }

  lemma CellRowsHold(free: set<Cell>, cells: seq<Cell>)
    requires Strict(CellNotAfter, cells) && forall f :: f in cells <==> f in free
    ensures |CellRows(cells)| == |free| && forall f :: f in free ==> [f.col, f.row] in CellRows(cells)
  {
    ElementsSize(cells);
    assert Elements(cells) == free;
    forall f | f in free ensures [f.col, f.row] in CellRows(cells) {
      var i :| 0 <= i < |cells| && cells[i] == f;
      assert CellRows(cells)[i] == [f.col, f.row];
    }
  }

  /** A map of the first schema is named after its hash, and one without a bound gets the default one. */
  lemma OldFilesLoad(hash: Payload -> string, file: File, freshId: string, freshVersion: string)
    requires Loaded(hash, file, freshId, freshVersion).Ok?
    ensures var (meta, p) := (Loaded(hash, file, freshId, freshVersion).value.0, file.payload);
      && (p.schemaVersion == 1 ==> exists name :: IsLegacyName(file.contentHash.value, name) && meta.mapVersion == "legacy-" + name)
      && (p.schemaVersion == 2 && p.mapVersion != "" ==> meta.mapVersion == p.mapVersion)
      && (p.maxVoxels.None? ==> meta.maxVoxels == if |p.voxels| > 500000 then |p.voxels| else 500000)
      && (p.maxVoxels.Some? ==> meta.maxVoxels == if |p.voxels| > p.maxVoxels.value then |p.voxels| else p.maxVoxels.value)
  {
    if file.payload.schemaVersion == 1 {
      var expected := file.contentHash.value;
      var name := if |expected| < 16 then expected else expected[..16];
      assert IsLegacyName(expected, name);
    }
  }

  /** The first sixteen characters, or all of them. */
  predicate IsLegacyName(hash: string, name: string) {
    name <= hash && |name| <= 16 && (|name| < 16 ==> name == hash)
  }

  lemma {:induction false} ReadVoxelsCounts(rows: seq<seq<int>>)
    requires ReadVoxels(rows).Ok?
    ensures var hits := ReadVoxels(rows).value; |hits| <= |rows| && forall v :: v in hits ==> hits[v] >= 1
  {
    if rows != [] {
      ReadVoxelsCounts(rows[..|rows| - 1]);
      var hits, row := ReadVoxels(rows[..|rows| - 1]).value, rows[|rows| - 1];
      var v := Voxel(row[0], row[1], row[2]);
      assert hits[v := row[3]].Keys == hits.Keys + {v};
      assert |hits.Keys| == |hits| && |hits[v := row[3]].Keys| == |hits[v := row[3]]|;
    }
  }

  /** Whatever file is accepted carries the hash of its own payload, and yields a valid map. */
  lemma LoadedIsValid(hash: Payload -> string, file: File, freshId: string, freshVersion: string)
    requires freshId != "" && freshVersion != "" && Loaded(hash, file, freshId, freshVersion).Ok?
    ensures file.contentHash == Some(hash(file.payload))
    ensures var (meta, c) := Loaded(hash, file, freshId, freshVersion).value;
            ValidMeta(meta) && ValidContent(c, meta.maxVoxels)
  {
    ReadVoxelsCounts(file.payload.voxels);
  }

  function MetaOf(m: SparseVoxelMap): Meta { Meta(m.resolution, m.mapId, m.mapVersion, m.maxVoxels) }

  /** `save`. */
  method Save(hash: Payload -> string, m: SparseVoxelMap) returns (file: File)
    ensures file == Saved(hash, MetaOf(m), m.Current())
  {
    VoxelNotAfterIsTotal();
    CellNotAfterIsTotal();
    CellNotAfterAntisymmetric();
    var keys := SortedSet(VoxelNotAfter, m.hits.Keys);
    var cells := SortedSet(CellNotAfter, m.knownFree);
    ListOfIsOnly(VoxelNotAfter, m.hits.Keys, keys);
    ListOfIsOnly(CellNotAfter, m.knownFree, cells);
    var payload := Payload(SCHEMA_VERSION, m.mapId, m.mapVersion, m.resolution, "map", Some(m.maxVoxels),
                           VoxelRows(m.hits, keys), CellRows(cells));
    return File(payload, Some(hash(payload)));
  }

  lemma CellNotAfterAntisymmetric()
    ensures Antisymmetric(CellNotAfter)
  {
  }

  /** `load`: a fresh map object with the loaded contents. */
  method Load(hash: Payload -> string, file: File, freshId: string, freshVersion: string) returns (r: Result<SparseVoxelMap>)
    requires freshId != "" && freshVersion != ""
    ensures r.Err? <==> Loaded(hash, file, freshId, freshVersion).Err?
    ensures r.Ok? ==> fresh(r.value) && r.value.Valid() && r.value.generation == 0
                      && Loaded(hash, file, freshId, freshVersion) == Ok((MetaOf(r.value), r.value.Current()))
  {
    var loaded := Loaded(hash, file, freshId, freshVersion);
    if loaded.Err? {
      return Err(loaded.error);
    }
    LoadedIsValid(hash, file, freshId, freshVersion);
    var (meta, c) := loaded.value;
    var m := new SparseVoxelMap(meta.resolution, meta.mapId, meta.mapVersion, meta.maxVoxels);
    m.hits, m.knownFree := c.hits, c.free;
    return Ok(m);
  }
}
