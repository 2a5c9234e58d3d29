/** Backup, validation and restore together (installer/backup_archive.py). */
module BackupRestore {
  import opened Wrappers
  import opened Ordering
  import opened BackupPaths
  import opened BackupManifest
  import opened BackupArchives
  import opened BackupCreation
  import opened TreeReplacement

  // What is assumed of the codec: JSON survives, and a digest is 64 hex digits.
  ghost predicate SoundCodec(c: Codec) {
    && (forall j {:trigger c.encode(j)} :: c.parse(c.encode(j)) == Some(j))
    && (forall s :: HexDigest(c.digest(s)))
  }

  // ---- the members of a created archive ----

  lemma PayloadNameParts(p: Path)
    requires PlainPath(p)
    ensures Parts("payload/" + Join(p)) == ["payload"] + p
  {
    JoinAppends(["payload"], p);
    assert Join(["payload"]) == "payload";
    assert "payload" + "/" + Join(p) == "payload/" + Join(p);
    assert PlainPath(["payload"] + p);
    PartsJoin(["payload"] + p);
  }

  predicate ShortName(name: string) {
    |name| <= 512 && '\\' !in name
  }

  lemma SingleNameIsValid(name: string)
    requires Plain(name) && ShortName(name)
    ensures ValidName(name)
  {
    SplitComponent(name);
    assert Normal([name]) == [name] + Normal([]);
  }

  lemma ManifestNameIsValid()
    ensures ValidName("manifest.json") && ShortName("manifest.json")
  {
    SingleNameIsValid("manifest.json");
  }

  lemma PayloadNameValidity(p: Path)
    requires PlainPath(p)
    ensures ValidName("payload/" + Join(p)) <==> ShortName("payload/" + Join(p))
  {
    PayloadNameParts(p);
    var name := "payload/" + Join(p);
    assert name[0] == 'p';
    forall i | 0 <= i < |["payload"] + p| ensures (["payload"] + p)[i] != ".." {}
  }

  lemma PackedNamesDiffer(c: Codec, payload: Tree, rs: seq<Record>, m: Manifest)
    requires StrictlySorted(PathsOf(rs))
    ensures var members := Packed(c, payload, rs, m);
            forall i, j :: 0 <= i < j < |members| ==> members[i].name != members[j].name
  {
    var members := Packed(c, payload, rs, m);
    forall i, j | 0 <= i < j < |members| ensures members[i].name != members[j].name {
      if i == 0 {
        assert members[0].name[0] == 'm' && members[j].name[0] == 'p';
      } else {
        assert StringLess(PathsOf(rs)[i - 1], PathsOf(rs)[j - 1]);
        var a, b := rs[i - 1], rs[j - 1];
        assert PayloadName(a)[8..] == a.path && PayloadName(b)[8..] == b.path;
      }
    }
  }

  lemma PackedNames(c: Codec, payload: Tree, rs: seq<Record>, m: Manifest)
    ensures NamesOf(Packed(c, payload, rs, m)) == ExpectedNames(rs)
  {
    var members := Packed(c, payload, rs, m);
    forall n | n in NamesOf(members) ensures n in ExpectedNames(rs) {
      var i :| 0 <= i < |members| && members[i].name == n;
      if i > 0 { assert rs[i - 1] in rs; }
    }
    forall n | n in ExpectedNames(rs) ensures n in NamesOf(members) {
      if n == "manifest.json" {
        assert members[0] in members;
      } else {
        var r :| r in rs && PayloadName(r) == n;
        var i :| 0 <= i < |rs| && rs[i] == r;
        assert members[i + 1] in members;
      }
    }
  }

  lemma PackedMember(c: Codec, payload: Tree, rs: seq<Record>, m: Manifest, i: nat)
    requires StrictlySorted(PathsOf(rs)) && i < |rs| && RStrip(PayloadName(rs[i])) == PayloadName(rs[i])
    ensures MemberFor(Packed(c, payload, rs, m), rs[i]).Some?
    ensures ContentFor(Packed(c, payload, rs, m), rs[i]) == FileAt(payload, rs[i])
  {
    var members := Packed(c, payload, rs, m);
    PackedNamesDiffer(c, payload, rs, m);
    assert members[i + 1] == PackedFiles(payload, rs)[i];
    NamedIsUnique(members, i + 1);
  }

  lemma PackedManifest(c: Codec, payload: Tree, rs: seq<Record>, m: Manifest)
    requires StrictlySorted(PathsOf(rs))
    ensures Named(Packed(c, payload, rs, m), "manifest.json") == Some(Packed(c, payload, rs, m)[0])
  {
    PackedNamesDiffer(c, payload, rs, m);
    NamedIsUnique(Packed(c, payload, rs, m), 0);
  }

  // ---- its records ----

  lemma AllowedInTree(l: Layout, t: Path, rel: Path)
    requires t in l.trees && PlainPath(t) && PlainPath(rel)
    ensures Allowed(l, Join(t + rel))
  {
    PlainBelow(t, rel);
    PartsJoin(t + rel);
    JoinAppends(t, rel);
    assert Join(t) + "/" <= Join(t + rel);
  }

  lemma AllowedFixed(l: Layout, p: Path)
    requires SoundLayout(l) && p in l.fixed
    ensures Allowed(l, Join(p))
  {
    FixedIsPlain(l, p);
    PartsJoin(p);
  }

  lemma AllowedTreeFile(l: Layout, inst: Installation, i: nat, p: Path)
    requires SoundLayout(l) && Present(l, inst) && FileSystem(inst)
    requires i < |l.trees| && InTree(inst, l.trees[i], p)
    ensures Allowed(l, Join(p))
  {
    var t := l.trees[i];
    assert p == t + p[|t|..];
    AllowedInTree(l, t, p[|t|..]);
  }

  lemma AllowedInPayload(l: Layout, inst: Installation, p: Path)
    requires SoundLayout(l) && Present(l, inst) && FileSystem(inst)
    requires p in l.fixed || InTrees(inst, l.trees, p)
    ensures Allowed(l, Join(p))
  {
    if p in l.fixed {
      AllowedFixed(l, p);
    } else {
      var i :| 0 <= i < |l.trees| && InTree(inst, l.trees[i], p);
      AllowedTreeFile(l, inst, i, p);
    }
  }

  lemma RecordIsGood(l: Layout, c: Codec, inst: Installation, r: Record)
    requires SoundLayout(l) && CanCreate(l, c, inst) && FileSystem(inst) && SoundCodec(c)
    requires RecordDescribes(c, PayloadOf(l, inst), r) && r.size <= MAX_FILE_SIZE
    requires ShortName(PayloadName(r))
    ensures GoodRecord(l, RecordJson(r), r)
  {
    var p := Parts(r.path);
    PayloadIsPlain(l, inst, p);
    PayloadKeys(l, inst, p);
    AllowedInPayload(l, inst, p);
    RecordSurvives(r);
    PartsJoin(p);
    assert Plain(p[0]);
    ShortPath(r);
    FirstCharacter(p);
  }

  lemma ShortPath(r: Record)
    requires ShortName(PayloadName(r))
    ensures ShortName(r.path)
  {
    if '\\' in r.path { InPayloadName(r, '\\'); }
  }

  lemma FirstCharacter(p: Path)
    requires PlainPath(p)
    ensures Join(p) != "" && Join(p)[0] != '/' && ".." !in p
  {
    assert Plain(p[0]);
    assert Join(p)[0] == p[0][0] && p[0][0] in p[0];
    forall i | 0 <= i < |p| ensures p[i] != ".." { assert Plain(p[i]); }
  }

  lemma TreeFileIsSmall(l: Layout, inst: Installation, i: nat, p: Path)
    requires SoundLayout(l) && Present(l, inst) && SmallFiles(l, inst)
    requires i < |l.trees| && InTree(inst, l.trees[i], p) && p in PayloadOf(l, inst)
    ensures |PayloadOf(l, inst)[p]| <= MAX_FILE_SIZE
  {
    var t := l.trees[i];
    assert p == t + p[|t|..];
    PayloadTree(l, inst, i, p[|t|..]);
    assert AllSmall(inst.trees[t]);
  }

  lemma PayloadIsSmall(l: Layout, inst: Installation, p: Path)
    requires SoundLayout(l) && Present(l, inst) && SmallFiles(l, inst) && p in PayloadOf(l, inst)
    ensures |PayloadOf(l, inst)[p]| <= MAX_FILE_SIZE
  {
    PayloadKeys(l, inst, p);
    if p in l.fixed {
      PayloadFixed(l, inst, p);
    } else {
      var i :| 0 <= i < |l.trees| && InTree(inst, l.trees[i], p);
      TreeFileIsSmall(l, inst, i, p);
    }
  }

  lemma RecordsAreGood(l: Layout, c: Codec, inst: Installation, rs: seq<Record>)
    requires SoundLayout(l) && CanCreate(l, c, inst) && FileSystem(inst) && SoundCodec(c)
    requires Describes(c, PayloadOf(l, inst), rs) && |rs| <= MAX_MEMBERS - 1
    requires forall i :: 0 <= i < |rs| ==> ShortName(PayloadName(rs[i]))
    ensures GoodRecords(l, RecordsJson(rs), rs)
  {
    var payload := PayloadOf(l, inst);
    forall i | 0 <= i < |rs| ensures GoodRecord(l, RecordsJson(rs)[i], rs[i]) {
      assert RecordDescribes(c, payload, rs[i]);
      PayloadIsSmall(l, inst, Parts(rs[i].path));
      RecordIsGood(l, c, inst, rs[i]);
    }
    forall i | 0 <= i < |l.fixed| ensures Join(l.fixed[i]) in PathsOf(rs) {
      PayloadFixed(l, inst, l.fixed[i]);
    }
  }

  // ---- its files ----

  lemma PackedFilesOf(c: Codec, payload: Tree, rs: seq<Record>, m: Manifest, i: nat)
    requires Describes(c, payload, rs) && FileSystemTree(payload) && i < |rs|
    ensures var p := Parts(rs[i].path);
            && p in payload && rs[i].path == Join(p)
            && FilesFor(Packed(c, payload, rs, m), rs)[i] == (p, payload[p])
            && DeliveredAt(c, Packed(c, payload, rs, m), rs, i)
  {
    assert RecordDescribes(c, payload, rs[i]);
    JoinEnds(Parts(rs[i].path));
    PackedMember(c, payload, rs, m, i);
  }

  lemma PackedApart(c: Codec, payload: Tree, rs: seq<Record>, m: Manifest)
    requires Describes(c, payload, rs) && FileSystemTree(payload)
    ensures NoCollisions(FilesFor(Packed(c, payload, rs, m), rs))
  {
    var files := FilesFor(Packed(c, payload, rs, m), rs);
    forall i, j | 0 <= i < j < |files| ensures !Collide(files[i].0, files[j].0) {
      PackedFilesOf(c, payload, rs, m, i);
      PackedFilesOf(c, payload, rs, m, j);
      assert StringLess(PathsOf(rs)[i], PathsOf(rs)[j]);
    }
  }

  lemma PackedDelivers(c: Codec, payload: Tree, rs: seq<Record>, m: Manifest)
    requires Describes(c, payload, rs) && FileSystemTree(payload)
    ensures AllDelivered(c, Packed(c, payload, rs, m), rs)
  {
    forall i | 0 <= i < |rs| ensures DeliveredAt(c, Packed(c, payload, rs, m), rs, i) {
      PackedFilesOf(c, payload, rs, m, i);
    }
  }

  lemma StagedIsPacked(c: Codec, payload: Tree, rs: seq<Record>, files: seq<(Path, string)>, m: Manifest, p: Path)
    requires Describes(c, payload, rs) && FileSystemTree(payload)
    requires files == FilesFor(Packed(c, payload, rs, m), rs) && NoCollisions(files) && p in TreeOf(files)
    ensures p in payload && TreeOf(files)[p] == payload[p]
  {
    FilesAreThere(files);
    var i :| 0 <= i < |files| && p == files[i].0;
    PackedFilesOf(c, payload, rs, m, i);
  }

  lemma PackedIsStaged(c: Codec, payload: Tree, rs: seq<Record>, files: seq<(Path, string)>, m: Manifest, p: Path)
    requires Describes(c, payload, rs) && FileSystemTree(payload)
    requires files == FilesFor(Packed(c, payload, rs, m), rs) && NoCollisions(files) && p in payload
    ensures p in TreeOf(files)
  {
    FilesAreThere(files);
    assert Join(p) in PathsOf(rs);
    var i :| 0 <= i < |rs| && PathsOf(rs)[i] == Join(p);
    PartsJoin(p);
    assert files[i].0 == p;
  }

  /** What is extracted from a created archive is the payload it was created from. */
  lemma PackedIsPayload(c: Codec, payload: Tree, rs: seq<Record>, m: Manifest)
    requires Describes(c, payload, rs) && FileSystemTree(payload)
    ensures Staged(Packed(c, payload, rs, m), rs) == payload
  {
    var files := FilesFor(Packed(c, payload, rs, m), rs);
    PackedApart(c, payload, rs, m);
    forall p | p in TreeOf(files) ensures p in payload && TreeOf(files)[p] == payload[p] {
      StagedIsPacked(c, payload, rs, files, m, p);
    }
    forall p | p in payload ensures p in TreeOf(files) { PackedIsStaged(c, payload, rs, files, m, p); }
    SameTree(TreeOf(files), payload);
  }

  // ---- creation and validation ----

  /** What `create_archive` does not check itself: names of at most 512 characters without backslash, a
      manifest of at most 1 MiB, at most 4 GiB with the manifest, and validation on an installation of
      the same version and address. */
  predicate Transportable(l: Layout, c: Codec, inst: Installation, members: Members, current: string)
    requires l.state in inst.fixed && members != []
  {
    && (forall i | 0 <= i < |members| :: ShortName(members[i].name))
    && |members[0].content| <= MAX_MANIFEST_SIZE && Total(members) <= MAX_TOTAL_SIZE
    && InstallState(c, current) == InstallState(c, inst.fixed[l.state])
  }

  function ManifestFor(l: Layout, c: Codec, inst: Installation, createdAt: string, rs: seq<Record>): Manifest
    requires l.database in inst.fixed && l.state in inst.fixed
    requires DatabaseSchema(c, inst.fixed[l.database]).Some? && InstallState(c, inst.fixed[l.state]).Some?
  {
    ManifestOf(rs, DatabaseSchema(c, inst.fixed[l.database]).value, InstallState(c, inst.fixed[l.state]).value, createdAt)
  }

  lemma ManifestSurvives(l: Layout, c: Codec, inst: Installation, createdAt: string, rs: seq<Record>)
    requires SoundLayout(l) && CanCreate(l, c, inst) && SoundCodec(c)
    ensures var m := ManifestFor(l, c, inst, createdAt, rs);
            && ParseManifest(c, c.encode(Obj(m))) == (if |c.encode(Obj(m))| <= MAX_MANIFEST_SIZE then Some(m) else None)
            && m["files"] == Arr(RecordsJson(rs))
  {
    ManifestIsGood(rs, DatabaseSchema(c, inst.fixed[l.database]).value, InstallState(c, inst.fixed[l.state]).value, createdAt);
  }

  lemma PackedMemberIsSafe(l: Layout, c: Codec, inst: Installation, r: Record)
    requires SoundLayout(l) && CanCreate(l, c, inst) && FileSystem(inst)
    requires RecordDescribes(c, PayloadOf(l, inst), r) && ShortName(PayloadName(r))
    ensures SafeMember(Member(PayloadName(r), true, FileAt(PayloadOf(l, inst), r)))
  {
    var p := Parts(r.path);
    PayloadIsPlain(l, inst, p);
    PayloadNameValidity(p);
    PayloadIsSmall(l, inst, p);
  }

  lemma PackedIsSafe(l: Layout, c: Codec, inst: Installation, members: Members, rs: seq<Record>, m: Manifest)
    requires SoundLayout(l) && CanCreate(l, c, inst) && FileSystem(inst)
    requires Describes(c, PayloadOf(l, inst), rs) && |rs| <= MAX_MEMBERS - 1
    requires members == Packed(c, PayloadOf(l, inst), rs, m)
    requires (forall i :: 0 <= i < |members| ==> ShortName(members[i].name))
    requires |members[0].content| <= MAX_MANIFEST_SIZE && Total(members) <= MAX_TOTAL_SIZE
    ensures SafeMembers(members)
  {
    PackedNamesDiffer(c, PayloadOf(l, inst), rs, m);
    forall i | 0 <= i < |members| ensures SafeAt(members, i) { PackedSafeAt(l, c, inst, members, rs, m, i); }
  }

  lemma PackedSafeAt(l: Layout, c: Codec, inst: Installation, members: Members, rs: seq<Record>, m: Manifest, i: nat)
    requires SoundLayout(l) && CanCreate(l, c, inst) && FileSystem(inst)
    requires Describes(c, PayloadOf(l, inst), rs) && members == Packed(c, PayloadOf(l, inst), rs, m)
    requires i < |members| && ShortName(members[i].name) && |members[0].content| <= MAX_MANIFEST_SIZE
    ensures SafeAt(members, i)
  {
    if i == 0 {
      ManifestNameIsValid();
    } else {
      assert members[i] == PackedFiles(PayloadOf(l, inst), rs)[i - 1];
      assert RecordDescribes(c, PayloadOf(l, inst), rs[i - 1]);
      PackedMemberIsSafe(l, c, inst, rs[i - 1]);
    }
  }

  lemma PackedShort(c: Codec, payload: Tree, rs: seq<Record>, m: Manifest, members: Members, i: nat)
    requires members == Packed(c, payload, rs, m) && i < |rs|
    requires forall j :: 0 <= j < |members| ==> ShortName(members[j].name)
    ensures ShortName(PayloadName(rs[i]))
  {
    assert members[i + 1] == PackedFiles(payload, rs)[i];
  }

  lemma TransportableIsAnnounced(l: Layout, c: Codec, inst: Installation, createdAt: string, members: Members,
                                 rs: seq<Record>, current: string)
    requires SoundLayout(l) && CanCreate(l, c, inst) && FileSystem(inst) && SoundCodec(c)
    requires IsArchiveOf(l, c, inst, createdAt, members, rs)
    requires Transportable(l, c, inst, members, current)
    ensures Announced(l, c, members, ManifestFor(l, c, inst, createdAt, rs), rs)
  {
    var payload, m := PayloadOf(l, inst), ManifestFor(l, c, inst, createdAt, rs);
    PackedIsSafe(l, c, inst, members, rs, m);
    forall i | 0 <= i < |rs| ensures ShortName(PayloadName(rs[i])) { PackedShort(c, payload, rs, m, members, i); }
    CreatedIsAnnounced(l, c, inst, createdAt, members, rs);
  }

  /** A transportable archive is accepted, and extracting it gives the payload it was created from. */
  lemma CreatedIsAccepted(l: Layout, c: Codec, inst: Installation, createdAt: string, members: Members,
                          rs: seq<Record>, current: string)
    requires SoundLayout(l) && CanCreate(l, c, inst) && FileSystem(inst) && SoundCodec(c)
    requires IsArchiveOf(l, c, inst, createdAt, members, rs)
    requires Transportable(l, c, inst, members, current)
    ensures Acceptable(l, c, members, current, ManifestFor(l, c, inst, createdAt, rs), rs)
    ensures Staged(members, rs) == PayloadOf(l, inst)
  {
    var payload, m := PayloadOf(l, inst), ManifestFor(l, c, inst, createdAt, rs);
    TransportableIsAnnounced(l, c, inst, createdAt, members, rs, current);
    PayloadIsTree(l, inst);
    PackedIsPayload(c, payload, rs, m);
    PackedApart(c, payload, rs, m);
    PackedDelivers(c, payload, rs, m);
    CreatedMetadata(l, c, inst, createdAt, rs, current);
  }

  lemma CreatedIsAnnounced(l: Layout, c: Codec, inst: Installation, createdAt: string, members: Members, rs: seq<Record>)
    requires SoundLayout(l) && CanCreate(l, c, inst) && FileSystem(inst) && SoundCodec(c)
    requires IsArchiveOf(l, c, inst, createdAt, members, rs) && SafeMembers(members)
    requires |members[0].content| <= MAX_MANIFEST_SIZE
    requires forall i :: 0 <= i < |rs| ==> ShortName(PayloadName(rs[i]))
    ensures Announced(l, c, members, ManifestFor(l, c, inst, createdAt, rs), rs)
  {
    var payload, m := PayloadOf(l, inst), ManifestFor(l, c, inst, createdAt, rs);
    PackedManifest(c, payload, rs, m);
    ManifestSurvives(l, c, inst, createdAt, rs);
    PackedNames(c, payload, rs, m);
    RecordsAreGood(l, c, inst, rs);
  }

  lemma CreatedMetadata(l: Layout, c: Codec, inst: Installation, createdAt: string, rs: seq<Record>, current: string)
    requires SoundLayout(l) && CanCreate(l, c, inst)
    requires InstallState(c, current) == InstallState(c, inst.fixed[l.state])
    ensures GoodManifest(ManifestFor(l, c, inst, createdAt, rs))
    ensures MetadataFits(l, c, ManifestFor(l, c, inst, createdAt, rs), PayloadOf(l, inst), current)
  {
    ManifestIsGood(rs, DatabaseSchema(c, inst.fixed[l.database]).value, InstallState(c, inst.fixed[l.state]).value, createdAt);
    PayloadFixed(l, inst, l.database);
    PayloadFixed(l, inst, l.state);
  }

  /** Of a created archive, exactly the transportable ones are accepted. */
  lemma AcceptedExactly(l: Layout, c: Codec, inst: Installation, createdAt: string, members: Members,
                        rs: seq<Record>, current: string)
    requires SoundLayout(l) && CanCreate(l, c, inst) && FileSystem(inst) && SoundCodec(c)
    requires IsArchiveOf(l, c, inst, createdAt, members, rs)
    ensures (exists m: Manifest, other :: Acceptable(l, c, members, current, m, other))
              <==> Transportable(l, c, inst, members, current)
  {
    if m: Manifest, other :| Acceptable(l, c, members, current, m, other) {
      AcceptedIsTransportable(l, c, inst, createdAt, members, rs, current, m, other);
    }
    if Transportable(l, c, inst, members, current) {
      CreatedIsAccepted(l, c, inst, createdAt, members, rs, current);
    }
  }

  /** One file whose name has a backslash makes the created archive one that is never accepted, whatever
      the installation it is validated on. */
  lemma BackslashIsRefused(l: Layout, c: Codec, inst: Installation, createdAt: string, members: Members,
                           rs: seq<Record>, p: Path)
    requires SoundLayout(l) && CanCreate(l, c, inst) && IsArchiveOf(l, c, inst, createdAt, members, rs)
    requires p in PayloadOf(l, inst) && '\\' in Join(p)
    ensures forall current :: !Transportable(l, c, inst, members, current)
    ensures forall current, m: Manifest, other :: !Acceptable(l, c, members, current, m, other)
  {
    var i := BackslashedMember(c, PayloadOf(l, inst), rs, ManifestFor(l, c, inst, createdAt, rs), p);
    assert !ShortName(members[i].name);
    assert !SafeAt(members, i);
  }

  lemma BackslashedMember(c: Codec, payload: Tree, rs: seq<Record>, m: Manifest, p: Path) returns (i: nat)
    requires Join(p) in PathsOf(rs) && '\\' in Join(p)
    ensures i < |Packed(c, payload, rs, m)| && '\\' in Packed(c, payload, rs, m)[i].name
  {
    var j :| 0 <= j < |rs| && PathsOf(rs)[j] == Join(p);
    i := j + 1;
    assert Packed(c, payload, rs, m)[i] == PackedFiles(payload, rs)[j];
    InPayloadName(rs[j], '\\');
  }

  lemma InPayloadName(r: Record, ch: char)
    requires ch in r.path
    ensures ch in PayloadName(r)
  {
    var i :| 0 <= i < |r.path| && r.path[i] == ch;
    assert PayloadName(r)[i + 8] == ch;
  }

  lemma AcceptedIsTransportable(l: Layout, c: Codec, inst: Installation, createdAt: string, members: Members,
                                rs: seq<Record>, current: string, m: Manifest, other: seq<Record>)
    requires SoundLayout(l) && CanCreate(l, c, inst) && SoundCodec(c)
    requires IsArchiveOf(l, c, inst, createdAt, members, rs)
    requires Acceptable(l, c, members, current, m, other)
    ensures Transportable(l, c, inst, members, current)
  {
    PackedManifest(c, PayloadOf(l, inst), rs, ManifestFor(l, c, inst, createdAt, rs));
    ManifestSurvives(l, c, inst, createdAt, rs);
    ManifestIsGood(rs, DatabaseSchema(c, inst.fixed[l.database]).value, InstallState(c, inst.fixed[l.state]).value, createdAt);
    assert m == ManifestFor(l, c, inst, createdAt, rs);
    forall i | 0 <= i < |members| ensures ShortName(members[i].name) { assert SafeAt(members, i); }
  }

  /** A created manifest states what the installation's own files state. */
  lemma ManifestStates(l: Layout, c: Codec, inst: Installation, createdAt: string, members: Members,
                       rs: seq<Record>, here: map<string, Json>)
    requires SoundLayout(l) && CanCreate(l, c, inst) && SoundCodec(c)
    requires IsArchiveOf(l, c, inst, createdAt, members, rs) && c.parse(inst.fixed[l.state]) == Some(Obj(here))
    ensures var m := ManifestFor(l, c, inst, createdAt, rs);
            && members != [] && members[0].name == "manifest.json" && c.parse(members[0].content) == Some(Obj(m))
            && GoodManifest(m) && m["created_at"] == Str(createdAt)
            && Some(m["version"]) == ValueAt(here, "version")
            && Some(m["public_ipv4"]) == ValueAt(here, "public_ipv4")
            && Some(m["schema_version"].s) == c.schema(inst.fixed[l.database])
  {
    StateIsStated(c, inst.fixed[l.state], here);
    var state, schema := InstallState(c, inst.fixed[l.state]).value, DatabaseSchema(c, inst.fixed[l.database]).value;
    ManifestFields(rs, schema, state, createdAt);
    ManifestIsGood(rs, schema, state, createdAt);
  }

  lemma StateIsStated(c: Codec, content: string, fields: map<string, Json>)
    requires InstallState(c, content).Some? && c.parse(content) == Some(Obj(fields))
    ensures ValueAt(fields, "version") == Some(Str(InstallState(c, content).value.0))
    ensures ValueAt(fields, "public_ipv4") == Some(Str(InstallState(c, content).value.1))
  {
    assert States(c, content, InstallState(c, content).value.0, InstallState(c, content).value.1);
  }

  // An installation that states something else is not the one of the manifest.
  lemma StatesOtherwise(c: Codec, content: string, fields: map<string, Json>, m: Manifest)
    requires GoodManifest(m) && c.parse(content) == Some(Obj(fields))
    requires Some(m["version"]) != ValueAt(fields, "version") || Some(m["public_ipv4"]) != ValueAt(fields, "public_ipv4")
    ensures InstallState(c, content) != Some((m["version"].s, m["public_ipv4"].s))
  {
    assert !States(c, content, m["version"].s, m["public_ipv4"].s);
  }

  /** An archive of an installation of another version or another address is accepted nowhere else. */
  lemma OtherInstallationIsRefused(l: Layout, c: Codec, inst: Installation, createdAt: string, members: Members,
                                   rs: seq<Record>, current: string, here: map<string, Json>, there: map<string, Json>)
    requires SoundLayout(l) && CanCreate(l, c, inst) && SoundCodec(c)
    requires IsArchiveOf(l, c, inst, createdAt, members, rs)
    requires c.parse(inst.fixed[l.state]) == Some(Obj(here)) && c.parse(current) == Some(Obj(there))
    requires ValueAt(here, "version") != ValueAt(there, "version")
             || ValueAt(here, "public_ipv4") != ValueAt(there, "public_ipv4")
    ensures forall m: Manifest, other :: !Acceptable(l, c, members, current, m, other)
  {
    var created := ManifestFor(l, c, inst, createdAt, rs);
    ManifestStates(l, c, inst, createdAt, members, rs, here);
    StatesOtherwise(c, current, there, created);
    PackedManifest(c, PayloadOf(l, inst), rs, created);
    forall m: Manifest, other ensures !Acceptable(l, c, members, current, m, other) {
      RefusedElsewhere(l, c, members, current, created, m, other);
    }
  }

  lemma RefusedElsewhere(l: Layout, c: Codec, members: Members, current: string, created: Manifest, m: Manifest,
                         other: seq<Record>)
    requires GoodManifest(created) && Named(members, "manifest.json").Some?
    requires c.parse(Named(members, "manifest.json").value.content) == Some(Obj(created))
    requires InstallState(c, current) != Some((created["version"].s, created["public_ipv4"].s))
    ensures !Acceptable(l, c, members, current, m, other)
  {
  }

  // ---- restoring ----

  // The files of a payload below one place, by their path from there.
  function Below(staged: Tree, t: Path): Tree {
    map rel | rel in (set p | p in staged && t <= p :: p[|t|..]) && t + rel in staged :: staged[t + rel]
  }

  // The tree has exactly the staged files below the place.
  ghost predicate IsBelow(tree: Tree, staged: Tree, t: Path) {
    && (forall rel :: rel in tree <==> t + rel in staged)
    && (forall rel :: rel in tree ==> tree[rel] == staged[t + rel])
  }

  lemma BelowIsBelow(staged: Tree, t: Path)
    ensures IsBelow(Below(staged, t), staged, t)
  {
    forall rel ensures rel in Below(staged, t) <==> t + rel in staged {
      if t + rel in staged { assert t <= t + rel && (t + rel)[|t|..] == rel; }
    }
  }

  // An installation after the restore: `install.json` stays as it was.
  ghost predicate Restored(l: Layout, staged: Tree, before: Installation, after: Installation) {
    && (forall p :: p in l.fixed && p != l.state ==>
          p in staged && p in after.fixed && after.fixed[p] == staged[p])
    && (forall p :: p !in l.fixed || p == l.state ==> ValueAt(after.fixed, p) == ValueAt(before.fixed, p))
    && (forall t :: t in l.trees ==> t in after.trees && IsBelow(after.trees[t], staged, t))
    && (forall t :: t !in l.trees ==> ValueAt(after.trees, t) == ValueAt(before.trees, t))
  }

  // The staged trees, in the order of the layout.
  function StagedTrees(l: Layout, staged: Tree): (parts: seq<Tree>)
    ensures |parts| == |l.trees| && forall i :: 0 <= i < |parts| ==> parts[i] == Below(staged, l.trees[i])
  {
    seq(|l.trees|, i requires 0 <= i < |l.trees| => Below(staged, l.trees[i]))
  }

  // The first `n` fixed files are the staged ones, the others as before.
  ghost predicate FixedUpTo(l: Layout, staged: Tree, before: Tree, after: Tree, n: nat) {
    && (forall i :: 0 <= i < |l.fixed| && l.fixed[i] != l.state ==>
          ValueAt(after, l.fixed[i]) == if i < n then ValueAt(staged, l.fixed[i]) else ValueAt(before, l.fixed[i]))
    && (forall p :: p !in l.fixed || p == l.state ==> ValueAt(after, p) == ValueAt(before, p))
  }

  // The first `n` trees are the given ones, those after the next as before; the next is one of the two
  // in whole, or gone.
  ghost predicate TreesUpTo(trees: seq<Path>, parts: seq<Tree>, before: map<Path, Tree>, after: map<Path, Tree>, n: nat)
    requires |parts| == |trees|
  {
    && (forall j :: 0 <= j < |trees| && j != n ==>
          ValueAt(after, trees[j]) == if j < n then Some(parts[j]) else ValueAt(before, trees[j]))
    && (n < |trees| ==> ValueAt(after, trees[n]) in {ValueAt(before, trees[n]), Some(parts[n]), None})
    && (forall t :: t !in trees ==> ValueAt(after, t) == ValueAt(before, t))
  }

  /** A restore that broke off: the fixed files are installed in order and each in one step, then the
      trees. */
  ghost predicate PartlyRestored(l: Layout, staged: Tree, before: Installation, after: Installation) {
    || (exists n: nat :: n <= |l.fixed| && FixedUpTo(l, staged, before.fixed, after.fixed, n) && after.trees == before.trees)
    || (exists n: nat :: && FixedUpTo(l, staged, before.fixed, after.fixed, |l.fixed|)
                         && TreesUpTo(l.trees, StagedTrees(l, staged), before.trees, after.trees, n))
  }

  // Some listing of a tree.
  method ListTree(tree: Tree) returns (files: seq<(Path, string)>)
    ensures TreeOf(files) == tree
  {
    files := [];
    var rest := tree.Keys;
    ghost var done: Tree := map[];
    while rest != {}
      invariant rest <= tree.Keys && done.Keys == tree.Keys - rest
      invariant forall p :: p in done ==> done[p] == tree[p]
      invariant TreeOf(files) == done
      decreases rest
    {
      var p :| p in rest;
      assert (files + [(p, tree[p])])[..|files|] == files;
      files := files + [(p, tree[p])];
      done := done[p := tree[p]];
      rest := rest - {p};
    }
    assert done == tree;
  }

  /** Where an exception strikes next, if at all; `strikes` counts those that do. */
  class Fate {
    var strikes: nat

    constructor ()
      ensures strikes == 0
    {
      strikes := 0;
    }

    method Next() returns (strike: Strike)
      modifies this
      ensures strikes == old(strikes) + if strike.Nowhere? then 0 else 1
    {
      strike := *;
      if !strike.Nowhere? { strikes := strikes + 1; }
    }
  }

  // An exception may strike anywhere; only at the moment TreeReplacement names is the tree gone.
  method RestoreTree(fate: Fate, before: Option<Tree>, tree: Tree) returns (after: Option<Tree>, completed: bool)
    modifies fate
    ensures fate.strikes >= old(fate.strikes) && (!completed ==> fate.strikes > old(fate.strikes))
    ensures after in {before, Some(tree), None}
    ensures completed ==> after == Some(tree)
  {
    var entry := if before.None? then None else Some(Directory(before.value));
    var restorer := new Restorer(entry);
    var files := ListTree(tree);
    var strike := fate.Next();
    completed := restorer.CopyTree(Listed(files), strike);
    var left := restorer.destination;
    after := if left.Some? && left.value.Directory? then Some(left.value.tree) else None;
  }

  lemma FixedOneMore(l: Layout, staged: Tree, before: Tree, after: Tree, i: nat)
    requires SoundLayout(l) && i < |l.fixed| && l.fixed[i] in staged && FixedUpTo(l, staged, before, after, i)
    ensures FixedUpTo(l, staged, before,
                      if l.fixed[i] == l.state then after else after[l.fixed[i] := staged[l.fixed[i]]], i + 1)
  {
    forall j | 0 <= j < |l.fixed| && j != i ensures l.fixed[j] != l.fixed[i] {
      assert !Collide(l.fixed[if i < j then i else j], l.fixed[if i < j then j else i]);
    }
  }

  method RestoreFixed(fate: Fate, l: Layout, staged: Tree, before: Tree)
    returns (after: Tree, completed: bool, ghost n: nat)
    requires SoundLayout(l) && forall p :: p in l.fixed ==> p in staged
    modifies fate
    ensures fate.strikes >= old(fate.strikes) && (!completed ==> fate.strikes > old(fate.strikes))
    ensures n <= |l.fixed| && FixedUpTo(l, staged, before, after, n)
    ensures completed ==> n == |l.fixed|
  {
    after, n := before, 0;
    for i := 0 to |l.fixed|
      invariant n == i && FixedUpTo(l, staged, before, after, i) && fate.strikes >= old(fate.strikes)
    {
      var p := l.fixed[i];
      assert p in l.fixed;
      FixedOneMore(l, staged, before, after, i);
      if p != l.state {
        // An exception before the rename, or right after it.
        var strike := fate.Next();
        if strike.BeforeMovingNew? { return after, false, i; }
        after := after[p := staged[p]];
        if strike.AfterMovingNew? { return after, false, i + 1; }
      }
      n := i + 1;
    }
    completed := true;
  }

  function Replaced(trees: map<Path, Tree>, t: Path, tree: Option<Tree>): map<Path, Tree> {
    if tree.Some? then trees[t := tree.value] else trees - {t}
  }

  method RestoreTrees(fate: Fate, trees: seq<Path>, parts: seq<Tree>, before: map<Path, Tree>)
    returns (after: map<Path, Tree>, completed: bool, ghost n: nat)
    requires |parts| == |trees| && forall i, j :: 0 <= i < j < |trees| ==> trees[i] != trees[j]
    modifies fate
    ensures fate.strikes >= old(fate.strikes) && (!completed ==> fate.strikes > old(fate.strikes))
    ensures n <= |trees| && TreesUpTo(trees, parts, before, after, n)
    ensures completed ==> n == |trees|
  {
    after, n := before, 0;
    for i := 0 to |trees|
      invariant n == i && TreesUpTo(trees, parts, before, after, i) && fate.strikes >= old(fate.strikes)
      invariant i < |trees| ==> ValueAt(after, trees[i]) == ValueAt(before, trees[i])
    {
      var t := trees[i];
      assert t in trees;
      var tree, done := RestoreTree(fate, ValueAt(after, t), parts[i]);
      after := Replaced(after, t, tree);
      if !done { return after, false, i; }
      n := i + 1;
    }
    completed := true;
  }

  lemma AllBelow(l: Layout, staged: Tree, before: map<Path, Tree>, trees: map<Path, Tree>)
    requires TreesUpTo(l.trees, StagedTrees(l, staged), before, trees, |l.trees|)
    ensures forall t :: t in l.trees ==> t in trees && IsBelow(trees[t], staged, t)
  {
    forall t | t in l.trees ensures t in trees && IsBelow(trees[t], staged, t) {
      var i :| 0 <= i < |l.trees| && l.trees[i] == t;
      assert ValueAt(trees, l.trees[i]) == Some(Below(staged, t));
      BelowIsBelow(staged, t);
    }
  }

  lemma AllInstalled(l: Layout, staged: Tree, before: Tree, after: Tree)
    requires FixedUpTo(l, staged, before, after, |l.fixed|) && forall p :: p in l.fixed ==> p in staged
    ensures forall p :: p in l.fixed && p != l.state ==> p in after && after[p] == staged[p]
  {
    forall p | p in l.fixed && p != l.state ensures p in after && after[p] == staged[p] {
      var i :| 0 <= i < |l.fixed| && l.fixed[i] == p;
      assert ValueAt(after, l.fixed[i]) == ValueAt(staged, p);
    }
  }

  /** A restore that broke off can be repeated: the result is the same as if the first had never begun. */
  lemma RestoreResumes(l: Layout, staged: Tree, before: Installation, partly: Installation, after: Installation)
    requires PartlyRestored(l, staged, before, partly) && Restored(l, staged, partly, after)
    ensures Restored(l, staged, before, after)
  {
    if n: nat :| n <= |l.fixed| && FixedUpTo(l, staged, before.fixed, partly.fixed, n) && partly.trees == before.trees {
    } else {
      var n: nat :| FixedUpTo(l, staged, before.fixed, partly.fixed, |l.fixed|)
                    && TreesUpTo(l.trees, StagedTrees(l, staged), before.trees, partly.trees, n);
    }
  }

  lemma TreesAreDistinct(l: Layout)
    requires SoundLayout(l)
    ensures forall i, j :: 0 <= i < j < |l.trees| ==> l.trees[i] != l.trees[j]
  {
    forall i, j | 0 <= i < j < |l.trees| ensures l.trees[i] != l.trees[j] {
      assert !Collide(l.trees[i], l.trees[j]);
    }
  }

  // Every record's file is staged unchanged.
  ghost predicate StagedUnchanged(c: Codec, staged: Tree, rs: seq<Record>) {
    forall i :: 0 <= i < |rs| ==> Parts(rs[i].path) in staged && Delivers(c, staged[Parts(rs[i].path)], rs[i])
  }

  method CheckStaged(c: Codec, staged: Tree, rs: seq<Record>) returns (same: bool)
    ensures same <==> StagedUnchanged(c, staged, rs)
  {
    for i := 0 to |rs|
      invariant forall j :: 0 <= j < i ==> Parts(rs[j].path) in staged && Delivers(c, staged[Parts(rs[j].path)], rs[j])
    {
      var p := Parts(rs[i].path);
      if p !in staged || |staged[p]| != rs[i].size || c.digest(staged[p]) != rs[i].digest { return false; }
    }
    return true;
  }

  /** Refused: nothing was touched. Broken: an exception struck on the way. */
  datatype Application = Refused | Broken(partly: Installation) | Applied(after: Installation)

  // The staged payload is as its manifest says.
  ghost predicate Matches(l: Layout, c: Codec, manifest: string, staged: Tree) {
    exists m: Manifest, rs :: ParseManifest(c, manifest) == Some(m) && GoodRecords(l, m["files"].items, rs)
                              && StagedUnchanged(c, staged, rs)
  }

  method CheckPayload(l: Layout, c: Codec, manifest: string, staged: Tree) returns (matches: bool)
    requires SoundLayout(l)
    ensures matches <==> Matches(l, c, manifest, staged)
    ensures matches ==> forall p :: p in l.fixed ==> p in staged
  {
    var m := ParseManifest(c, manifest);
    if m.None? { return false; }
    var items := m.value["files"].items;
    var records := ManifestRecords(l, items);
    if records.None? { return false; }
    forall rs | GoodRecords(l, items, rs) ensures rs == records.value {
      GoodRecordsUnique(l, items, rs, records.value);
    }
    matches := CheckStaged(c, staged, records.value);
    if matches { RequiredAreStaged(l, c, staged, items, records.value); }
  }

  /** Checks the staged payload against the staged manifest again, then installs it: refused exactly when
      it does not match, and otherwise installed, or, if an exception strikes, broken off with every file
      and every tree whole but at most one. */
  method ApplyPayload(fate: Fate, l: Layout, c: Codec, manifest: string, staged: Tree, root: Installation)
    returns (r: Application)
    requires SoundLayout(l)
    modifies fate
    ensures r.Broken? ==> fate.strikes > old(fate.strikes)
    ensures r.Refused? <==> !Matches(l, c, manifest, staged)
    ensures r.Broken? ==> PartlyRestored(l, staged, root, r.partly)
    ensures r.Applied? ==> Restored(l, staged, root, r.after)
  {
    var matches := CheckPayload(l, c, manifest, staged);
    if !matches { return Refused; }
    var fixed, completed, n := RestoreFixed(fate, l, staged, root.fixed);
    if !completed { return Broken(Installation(fixed, root.trees)); }
    TreesAreDistinct(l);
    var trees;
    trees, completed, n := RestoreTrees(fate, l.trees, StagedTrees(l, staged), root.trees);
    if !completed { return Broken(Installation(fixed, trees)); }
    AllInstalled(l, staged, root.fixed, fixed);
    AllBelow(l, staged, root.trees, trees);
    return Applied(Installation(fixed, trees));
  }

  lemma RequiredAreStaged(l: Layout, c: Codec, staged: Tree, items: seq<Json>, rs: seq<Record>)
    requires SoundLayout(l) && GoodRecords(l, items, rs) && StagedUnchanged(c, staged, rs)
    ensures forall p :: p in l.fixed ==> p in staged
  {
    forall p | p in l.fixed ensures p in staged {
      var i :| 0 <= i < |l.fixed| && l.fixed[i] == p;
      assert Join(l.fixed[i]) in PathsOf(rs);
      var k :| 0 <= k < |rs| && PathsOf(rs)[k] == Join(p);
      FixedIsPlain(l, p);
      PartsJoin(p);
    }
  }

  // The restored installation has the fixed files and the trees of the one backed up; `install.json`
  // is its own.
  ghost predicate GivesBack(l: Layout, inst: Installation, root: Installation, after: Installation)
    requires Present(l, inst)
  {
    && (forall p :: p in l.fixed && p != l.state ==> p in after.fixed && after.fixed[p] == inst.fixed[p])
    && (l.state in after.fixed <==> l.state in root.fixed)
    && (l.state in after.fixed ==> after.fixed[l.state] == root.fixed[l.state])
    && (forall t :: t in l.trees ==> t in after.trees && after.trees[t] == inst.trees[t])
  }

  /** Restoring a payload gives back every fixed file but `install.json`, and both trees in whole. */
  lemma RestoreGivesBack(l: Layout, inst: Installation, root: Installation, after: Installation)
    requires SoundLayout(l) && Present(l, inst) && Restored(l, PayloadOf(l, inst), root, after)
    ensures GivesBack(l, inst, root, after)
  {
    var payload := PayloadOf(l, inst);
    forall p | p in l.fixed && p != l.state ensures p in after.fixed && after.fixed[p] == inst.fixed[p] {
      PayloadFixed(l, inst, p);
    }
    forall t | t in l.trees ensures t in after.trees && after.trees[t] == inst.trees[t] {
      var k :| 0 <= k < |l.trees| && l.trees[k] == t;
      TreeComesBack(l, inst, k, after.trees[t]);
    }
  }

  lemma TreeComesBack(l: Layout, inst: Installation, k: nat, back: Tree)
    requires SoundLayout(l) && Present(l, inst) && k < |l.trees|
    requires IsBelow(back, PayloadOf(l, inst), l.trees[k])
    ensures back == inst.trees[l.trees[k]]
  {
    forall rel ensures rel in back <==> rel in inst.trees[l.trees[k]] { PayloadTree(l, inst, k, rel); }
    forall rel | rel in back ensures back[rel] == inst.trees[l.trees[k]][rel] { PayloadTree(l, inst, k, rel); }
    SameTree(back, inst.trees[l.trees[k]]);
  }

  // Whatever manifest and records an accepted archive turns out to have, they are those it was created
  // with.
  lemma AcceptedAsCreated(l: Layout, c: Codec, inst: Installation, createdAt: string, members: Members,
                          rs: seq<Record>, current: string, m: Manifest, other: seq<Record>)
    requires SoundLayout(l) && CanCreate(l, c, inst) && FileSystem(inst) && SoundCodec(c)
    requires IsArchiveOf(l, c, inst, createdAt, members, rs)
    requires Acceptable(l, c, members, current, m, other)
    ensures Transportable(l, c, inst, members, current)
    ensures m == ManifestFor(l, c, inst, createdAt, rs) && other == rs
    ensures Staged(members, other) == PayloadOf(l, inst)
  {
    AcceptedIsTransportable(l, c, inst, createdAt, members, rs, current, m, other);
    CreatedIsAccepted(l, c, inst, createdAt, members, rs, current);
    GoodRecordsUnique(l, m["files"].items, other, rs);
  }

  // The manifest written beside the staged payload passes the checks made before the restore.
  lemma StagedPassesAgain(l: Layout, c: Codec, inst: Installation, createdAt: string, members: Members,
                          rs: seq<Record>, current: string)
    requires SoundLayout(l) && CanCreate(l, c, inst) && FileSystem(inst) && SoundCodec(c)
    requires IsArchiveOf(l, c, inst, createdAt, members, rs)
    requires Acceptable(l, c, members, current, ManifestFor(l, c, inst, createdAt, rs), rs)
    ensures var m := ManifestFor(l, c, inst, createdAt, rs);
            && ParseManifest(c, c.encode(Obj(m))) == Some(m) && GoodRecords(l, m["files"].items, rs)
            && StagedUnchanged(c, Staged(members, rs), rs)
  {
    var m := ManifestFor(l, c, inst, createdAt, rs);
    AcceptedIsTransportable(l, c, inst, createdAt, members, rs, current, m, rs);
    ManifestSurvives(l, c, inst, createdAt, rs);
    ExtractedAsRecorded(l, c, members, current, m, rs);
    forall i | 0 <= i < |rs|
      ensures Parts(rs[i].path) in Staged(members, rs) && Delivers(c, Staged(members, rs)[Parts(rs[i].path)], rs[i])
    {
      assert Extracted(c, Staged(members, rs), rs[i]);
    }
  }

  /** Back up one installation and restore the archive into another: it gives back everything, or an
      exception broke it off on the way, or the installation could not be backed up, or its archive is not
      transportable. */
  method BackUpAndRestore(fate: Fate, l: Layout, c: Codec, inst: Installation, createdAt: string, current: string,
                          root: Installation)
    returns (r: Application)
    requires SoundLayout(l) && FileSystem(inst) && SoundCodec(c)
    modifies fate
    ensures r.Broken? ==> fate.strikes > old(fate.strikes)
    ensures r.Applied? ==> CanCreate(l, c, inst) && GivesBack(l, inst, root, r.after)
    ensures r.Broken? ==> CanCreate(l, c, inst) && PartlyRestored(l, PayloadOf(l, inst), root, r.partly)
    ensures r.Refused? && CanCreate(l, c, inst) ==>
              exists members, rs :: IsArchiveOf(l, c, inst, createdAt, members, rs)
                                    && !Transportable(l, c, inst, members, current)
  {
    var archive := CreateArchive(l, c, inst, createdAt);
    if archive.None? { return Refused; }
    var members := archive.value;
    ghost var rs :| IsArchiveOf(l, c, inst, createdAt, members, rs);
    var extraction := ValidateAndExtract(l, c, members, current);
    if extraction.None? {
      if Transportable(l, c, inst, members, current) {
        CreatedIsAccepted(l, c, inst, createdAt, members, rs, current);
      }
      return Refused;
    }
    var Extraction(m, staged) := extraction.value;
    ghost var other :| Acceptable(l, c, members, current, m, other) && staged == Staged(members, other);
    AcceptedAsCreated(l, c, inst, createdAt, members, rs, current, m, other);
    StagedPassesAgain(l, c, inst, createdAt, members, rs, current);
    r := ApplyPayload(fate, l, c, c.encode(Obj(m)), staged, root);
    if r.Applied? { RestoreGivesBack(l, inst, root, r.after); }
  }
}
