/** The manifest of a backup archive (installer/backup_archive.py). */
module BackupManifest {
  import opened Wrappers
  import opened Ordering
  import opened BackupPaths

  const MAX_FILE_SIZE := 2 * 1024 * 1024 * 1024
  const MAX_TOTAL_SIZE := 4 * 1024 * 1024 * 1024
  const MAX_MEMBERS := 10_000
  const MAX_MANIFEST_SIZE := 1024 * 1024
  const SUPPORTED_SCHEMA_VERSIONS := {"0001_initial"}

  datatype Json =
    | Null
    | Bool(b: bool)
    | Int(n: int)
    | Float(numerator: int, denominator: int)
    | Str(s: string)
    | Arr(items: seq<Json>)
    | Obj(fields: map<string, Json>)

  /** SHA-256 in hex, the JSON codec, and the schema version of a sound database file. */
  datatype Codec = Codec(
    digest: string -> string,
    parse: string -> Option<Json>,
    encode: Json -> string,
    schema: string -> Option<string>)

  /** Where the parts of an installation are inside the payload. */
  datatype Layout = Layout(fixed: seq<Path>, trees: seq<Path>, database: Path, state: Path)

  const LAYOUT := Layout(
    [ ["database", "ezopenpn.sqlite3"],
      ["configuration", "control.toml"],
      ["configuration", "Caddyfile"],
      ["configuration", "compose.yaml"],
      ["configuration", "stack.env"],
      ["state", "install.json"],
      ["secrets", "master.key"],
      ["secrets", "hysteria-api.key"],
      ["secrets", "hysteria-obfs.key"],
      ["runtime", "xray", "config.json"],
      ["runtime", "hysteria", "config.yaml"] ],
    [ ["runtime", "material"],
      ["caddy"] ],
    ["database", "ezopenpn.sqlite3"],
    ["state", "install.json"])

  // The places are plain paths and none is inside another.
  ghost predicate SoundLayout(l: Layout) {
    && (forall i :: 0 <= i < |l.fixed| ==> PlainPath(l.fixed[i]))
    && (forall i :: 0 <= i < |l.trees| ==> PlainPath(l.trees[i]))
    && (forall i, j :: 0 <= i < j < |l.fixed| ==> !Collide(l.fixed[i], l.fixed[j]))
    && (forall i, j :: 0 <= i < j < |l.trees| ==> !Collide(l.trees[i], l.trees[j]))
    && (forall i, j :: 0 <= i < |l.fixed| && 0 <= j < |l.trees| ==> !Collide(l.fixed[i], l.trees[j]))
    && l.database in l.fixed && l.state in l.fixed
  }

  // Lengths and letters that tell the places apart.
  function Mark(p: Path): (int, char, int, char)
    requires |p| >= 2 && p[0] != "" && |p[1]| >= 3
  {
    (|p[0]|, p[0][0], |p[1]|, p[1][2])
  }

  const MARKS := [
    (8, 'd', 16, 'o'), (13, 'c', 12, 'n'), (13, 'c', 9, 'd'), (13, 'c', 12, 'm'), (13, 'c', 9, 'a'),
    (5, 's', 12, 's'), (7, 's', 10, 's'), (7, 's', 16, 's'), (7, 's', 17, 's'), (7, 'r', 4, 'a'), (7, 'r', 8, 's') ]

  lemma FixedMarks()
    ensures |MARKS| == |LAYOUT.fixed|
    ensures forall i :: 0 <= i < |MARKS| ==>
              && |LAYOUT.fixed[i]| >= 2 && LAYOUT.fixed[i][0] != "" && |LAYOUT.fixed[i][1]| >= 3
              && Mark(LAYOUT.fixed[i]) == MARKS[i]
  {
  }

  lemma Apart(p: Path, q: Path, k: nat)
    requires k < |p| && k < |q| && p[k] != q[k]
    ensures !Collide(p, q)
  {
  }

  lemma MarksDiffer(p: Path, q: Path)
    requires |p| >= 2 && p[0] != "" && |p[1]| >= 3 && |q| >= 2 && q[0] != "" && |q[1]| >= 3
    requires Mark(p) != Mark(q)
    ensures !Collide(p, q)
  {
    Apart(p, q, if p[0] != q[0] then 0 else 1);
  }

  lemma FixedApart()
    ensures forall i, j :: 0 <= i < j < |LAYOUT.fixed| ==> !Collide(LAYOUT.fixed[i], LAYOUT.fixed[j])
  {
    FixedMarks();
    forall i, j | 0 <= i < j < |LAYOUT.fixed| ensures !Collide(LAYOUT.fixed[i], LAYOUT.fixed[j]) {
      assert MARKS[i] != MARKS[j];
      MarksDiffer(LAYOUT.fixed[i], LAYOUT.fixed[j]);
    }
  }

  lemma TreesApart()
    ensures forall i, j :: 0 <= i < j < |LAYOUT.trees| ==> !Collide(LAYOUT.trees[i], LAYOUT.trees[j])
    ensures forall i, j :: 0 <= i < |LAYOUT.fixed| && 0 <= j < |LAYOUT.trees| ==>
              !Collide(LAYOUT.fixed[i], LAYOUT.trees[j])
  {
    FixedMarks();
    var material, caddy := LAYOUT.trees[0], LAYOUT.trees[1];
    assert |material[0]| == 7 && |caddy[0]| == 5;
    Apart(material, caddy, 0);
    assert Mark(material) == (7, 'r', 8, 't');
    forall i | 0 <= i < |LAYOUT.fixed| ensures !Collide(LAYOUT.fixed[i], material) && !Collide(LAYOUT.fixed[i], caddy) {
      assert MARKS[i] != (7, 'r', 8, 't') && !(MARKS[i].0 == 5 && MARKS[i].1 == 'c');
      MarksDiffer(LAYOUT.fixed[i], material);
      assert caddy[0][0] == 'c';
      Apart(LAYOUT.fixed[i], caddy, 0);
    }
  }

  lemma FixedArePlain()
    ensures forall i :: 0 <= i < |LAYOUT.fixed| ==> PlainPath(LAYOUT.fixed[i])
  {
    forall i | 0 <= i < |LAYOUT.fixed| ensures PlainPath(LAYOUT.fixed[i]) {
      if i < 5 { FirstArePlain(i); } else { LastArePlain(i); }
    }
  }

  lemma FirstArePlain(i: nat)
    requires i < 5
    ensures PlainPath(LAYOUT.fixed[i])
  {
  }

  lemma LastArePlain(i: nat)
    requires 5 <= i < |LAYOUT.fixed|
    ensures PlainPath(LAYOUT.fixed[i])
  {
  }

  lemma TreesArePlain()
    ensures forall i :: 0 <= i < |LAYOUT.trees| ==> PlainPath(LAYOUT.trees[i])
  {
  }

  /** The places of this program. */
  lemma LayoutIsSound()
    ensures SoundLayout(LAYOUT)
  {
    FixedArePlain();
    TreesArePlain();
    FixedApart();
    TreesApart();
    assert LAYOUT.fixed[0] == LAYOUT.database && LAYOUT.fixed[5] == LAYOUT.state;
  }

  predicate ValidName(name: string) {
    && name != "" && |name| <= 512 && '\\' !in name && name[0] != '/'
    && ".." !in Parts(name)
  }

  predicate Allowed(l: Layout, name: string) {
    var value := AsPosix(Parts(name));
    || (exists p | p in l.fixed :: value == Join(p))
    || (exists t | t in l.trees :: Join(t) + "/" <= value)
  }

  /** A name is allowed exactly if it stands for a fixed place or for one below a tree. */
  lemma AllowedExactly(l: Layout, name: string)
    requires SoundLayout(l) && ValidName(name) && Parts(name) != []
    ensures Allowed(l, name) <==> Parts(name) in l.fixed || exists t :: t in l.trees && t < Parts(name)
  {
    var p := Parts(name);
    PartsArePlain(name);
    PartsJoin(p);
    forall q | q in l.fixed ensures Join(q) == Join(p) <==> q == p {
      var i :| 0 <= i < |l.fixed| && l.fixed[i] == q;
      PartsJoin(q);
    }
    forall t | t in l.trees ensures Join(t) + "/" <= Join(p) <==> t < p {
      var i :| 0 <= i < |l.trees| && l.trees[i] == t;
      JoinBelow(t, p);
    }
  }

  // The limits in bytes and members.
  lemma Limits()
    ensures MAX_FILE_SIZE == 2_147_483_648 && MAX_TOTAL_SIZE == 4_294_967_296
    ensures MAX_MEMBERS == 10_000 && MAX_MANIFEST_SIZE == 1_048_576
  {
  }

  // ---- the manifest ----

  const FIELDS := {"application", "created_at", "files", "format", "public_ipv4", "quick_check", "schema_version", "version"}

  // What Python's == makes of a JSON value and 1.
  predicate EqualsOne(j: Json) {
    j == Int(1) || j == Bool(true) || (j.Float? && j.numerator == j.denominator != 0)
  }

  type Manifest = map<string, Json>

  predicate GoodManifest(m: Manifest) {
    && m.Keys == FIELDS
    && m["application"] == Str("EzOpenPN") && EqualsOne(m["format"]) && m["quick_check"] == Str("ok")
    && m["schema_version"].Str? && m["schema_version"].s in SUPPORTED_SCHEMA_VERSIONS
    && m["version"].Str? && m["public_ipv4"].Str? && m["created_at"].Str? && m["files"].Arr?
  }

  function ParseManifest(c: Codec, raw: string): (m: Option<Manifest>)
    ensures m.Some? ==> |raw| <= MAX_MANIFEST_SIZE && GoodManifest(m.value) && c.parse(raw) == Some(Obj(m.value))
    ensures m.None? ==> forall v: Manifest :: |raw| <= MAX_MANIFEST_SIZE && GoodManifest(v) ==> c.parse(raw) != Some(Obj(v))
  {
    if |raw| > MAX_MANIFEST_SIZE then None
    else
      var value := c.parse(raw);
      if value.Some? && value.value.Obj? && GoodManifest(value.value.fields)
      then Some(value.value.fields) else None
  }

  // ---- the file records ----

  datatype Record = Record(path: string, digest: string, size: nat)

  predicate HexDigest(s: string) {
    |s| == 64 && forall c | c in s :: '0' <= c <= '9' || 'a' <= c <= 'f'
  }

  function RecordOf(j: Json): (r: Option<Record>)
    ensures r.Some? ==> HexDigest(r.value.digest) && r.value.size <= MAX_FILE_SIZE
  {
    if !j.Obj? || j.fields.Keys != {"path", "sha256", "size"} then None
    else
      var path, digest, size := j.fields["path"], j.fields["sha256"], j.fields["size"];
      if path.Str? && digest.Str? && HexDigest(digest.s) && size.Int? && 0 <= size.n <= MAX_FILE_SIZE
      then Some(Record(path.s, digest.s, size.n)) else None
  }

  function PathsOf(rs: seq<Record>): (paths: seq<string>)
    ensures |paths| == |rs| && forall i :: 0 <= i < |rs| ==> paths[i] == rs[i].path
  {
    seq(|rs|, i requires 0 <= i < |rs| => rs[i].path)
  }

  ghost predicate GoodRecord(l: Layout, j: Json, r: Record) {
    RecordOf(j) == Some(r) && ValidName(r.path) && Allowed(l, r.path)
  }

  // Every fixed file is among the names.
  ghost predicate AllRequired(l: Layout, names: seq<string>) {
    forall i :: 0 <= i < |l.fixed| ==> Join(l.fixed[i]) in names
  }

  // The records are well formed, sorted and unique, and every fixed file is among them.
  ghost predicate GoodRecords(l: Layout, items: seq<Json>, rs: seq<Record>) {
    && |items| == |rs| <= MAX_MEMBERS - 1
    && (forall i :: 0 <= i < |rs| ==> GoodRecord(l, items[i], rs[i]))
    && StrictlySorted(PathsOf(rs))
    && AllRequired(l, PathsOf(rs))
  }

  ghost predicate IsBad(l: Layout, item: Json) {
    forall r :: !GoodRecord(l, item, r)
  }

  method ReadRecord(l: Layout, item: Json) returns (r: Option<Record>)
    ensures r.Some? ==> GoodRecord(l, item, r.value)
    ensures r.None? ==> IsBad(l, item)
  {
    r := RecordOf(item);
    if r.Some? && (!ValidName(r.value.path) || !Allowed(l, r.value.path)) { r := None; }
  }

  // What has been read of the list: good records without a duplicate.
  ghost predicate ReadSoFar(l: Layout, items: seq<Json>, rs: seq<Record>) {
    && |rs| <= |items|
    && (forall i {:trigger GoodRecord(l, items[i], rs[i])} :: 0 <= i < |rs| ==> GoodRecord(l, items[i], rs[i]))
    && (forall i, j :: 0 <= i < j < |rs| ==> rs[i].path != rs[j].path)
  }

  lemma BadItemIsBad(l: Layout, items: seq<Json>, k: nat)
    requires k < |items| && IsBad(l, items[k])
    ensures forall rs :: !GoodRecords(l, items, rs)
  {
    forall rs ensures !GoodRecords(l, items, rs) {
      if |rs| == |items| { assert !GoodRecord(l, items[k], rs[k]); }
    }
  }

  lemma DuplicateIsBad(l: Layout, items: seq<Json>, rs: seq<Record>, i: nat, r: Record)
    requires ReadSoFar(l, items, rs) && i < |rs| < |items|
    requires GoodRecord(l, items[|rs|], r) && rs[i].path == r.path
    ensures forall other :: !GoodRecords(l, items, other)
  {
    assert GoodRecord(l, items[i], rs[i]);
    forall other ensures !GoodRecords(l, items, other) { TwiceIsBad(l, items, other, i, |rs|); }
  }

  // Reads the list; a duplicate or anything malformed ends it.
  method ReadRecords(l: Layout, items: seq<Json>) returns (r: Option<seq<Record>>)
    ensures r.Some? ==> |r.value| == |items| && ReadSoFar(l, items, r.value)
    ensures r.None? ==> forall rs :: !GoodRecords(l, items, rs)
  {
    var rs: seq<Record> := [];
    for k := 0 to |items|
      invariant |rs| == k && ReadSoFar(l, items, rs)
    {
      var record := ReadRecord(l, items[k]);
      if record.None? {
        BadItemIsBad(l, items, k);
        return None;
      }
      if exists i | 0 <= i < k :: rs[i].path == record.value.path {
        ghost var i :| 0 <= i < k && rs[i].path == record.value.path;
        DuplicateIsBad(l, items, rs, i, record.value);
        return None;
      }
      rs := rs + [record.value];
    }
    return Some(rs);
  }

  lemma TwiceIsBad(l: Layout, items: seq<Json>, rs: seq<Record>, i: nat, k: nat)
    requires i < k < |items| && RecordOf(items[i]).Some? && RecordOf(items[k]).Some?
    requires RecordOf(items[i]).value.path == RecordOf(items[k]).value.path
    ensures !GoodRecords(l, items, rs)
  {
    if |rs| == |items| && GoodRecord(l, items[i], rs[i]) && GoodRecord(l, items[k], rs[k]) {
      assert !StringLess(PathsOf(rs)[i], PathsOf(rs)[k]);
    }
  }

  lemma SameRecords(l: Layout, items: seq<Json>, rs: seq<Record>, other: seq<Record>)
    requires |rs| == |items| && forall i :: 0 <= i < |items| ==> GoodRecord(l, items[i], rs[i])
    requires GoodRecords(l, items, other)
    ensures other == rs
  {
    forall i | 0 <= i < |items| ensures other[i] == rs[i] {
      assert GoodRecord(l, items[i], other[i]) && GoodRecord(l, items[i], rs[i]);
    }
  }

  lemma SameMembers(s: seq<string>, t: seq<string>, names: set<string>)
    requires names == set x | x in s
    requires names == set x | x in t
    ensures forall x :: x in s <==> x in t
  {
    forall x ensures x in s <==> x in t {
      assert x in s <==> x in names;
      assert x in t <==> x in names;
    }
  }

  method HasRequired(l: Layout, names: seq<string>) returns (all: bool)
    ensures all <==> AllRequired(l, names)
  {
    for i := 0 to |l.fixed|
      invariant forall j :: 0 <= j < i ==> Join(l.fixed[j]) in names
    {
      if Join(l.fixed[i]) !in names { return false; }
    }
    return true;
  }

  // Whether the names are in the order sorting gives them.
  method IsSorted(ordered: seq<string>) returns (sorted: bool)
    requires forall i, j :: 0 <= i < j < |ordered| ==> ordered[i] != ordered[j]
    ensures sorted <==> StrictlySorted(ordered)
  {
    var names := set p | p in ordered;
    var expected := Sorted(names);
    SameMembers(ordered, expected, names);
    if StrictlySorted(ordered) { SortedIsUnique(ordered, expected); }
    return ordered == expected;
  }

  // Nothing else could be good records of the items.
  lemma OnlyThese(l: Layout, items: seq<Json>, rs: seq<Record>)
    requires |rs| == |items| && forall i :: 0 <= i < |items| ==> GoodRecord(l, items[i], rs[i])
    ensures (exists other :: GoodRecords(l, items, other)) ==> GoodRecords(l, items, rs)
  {
    if other :| GoodRecords(l, items, other) { SameRecords(l, items, rs, other); }
  }

  /** Accepts exactly the lists that are good. */
  method ManifestRecords(l: Layout, items: seq<Json>) returns (r: Option<seq<Record>>)
    ensures r.Some? ==> GoodRecords(l, items, r.value)
    ensures r.None? ==> forall rs :: !GoodRecords(l, items, rs)
  {
    if |items| > MAX_MEMBERS - 1 { return None; }
    var records := ReadRecords(l, items);
    if records.None? { return None; }
    var rs := records.value;
    assert forall i :: 0 <= i < |items| ==> GoodRecord(l, items[i], rs[i]);
    OnlyThese(l, items, rs);
    var sorted := IsSorted(PathsOf(rs));
    if !sorted { return None; }
    var required := HasRequired(l, PathsOf(rs));
    if !required { return None; }
    return Some(rs);
  }
}
