/** Reading and writing backup archives (installer/backup_archive.py). An archive is the list of its
    members; compression and the tar encoding are not part of this model. */
module BackupArchives {
  import opened Wrappers
  import opened Ordering
  import opened BackupPaths
  import opened BackupManifest
  import opened TreeReplacement

  datatype Member = Member(name: string, isFile: bool, content: string)

  type Members = seq<Member>

  function Total(members: Members): nat {
    if members == [] then 0 else Total(members[..|members| - 1]) + |members[|members| - 1].content|
  }

  // The last member of that name.
  function Named(members: Members, name: string): Option<Member> {
    if members == [] then None
    else if members[|members| - 1].name == name then Some(members[|members| - 1])
    else Named(members[..|members| - 1], name)
  }

  lemma {:induction false} NamedIsUnique(members: Members, i: nat)
    requires i < |members|
    requires forall j, k :: 0 <= j < k < |members| ==> members[j].name != members[k].name
    ensures Named(members, members[i].name) == Some(members[i])
  {
    if i < |members| - 1 { NamedIsUnique(members[..|members| - 1], i); }
  }

  // ---- what the validation demands of the members ----

  predicate SafeMember(m: Member) {
    ValidName(m.name) && m.isFile && |m.content| <= MAX_FILE_SIZE
  }

  ghost predicate SafeAt(members: Members, i: int)
    requires 0 <= i < |members|
  {
    SafeMember(members[i])
  }

  ghost predicate SafeMembers(members: Members) {
    && 1 <= |members| <= MAX_MEMBERS
    && (forall i {:trigger SafeAt(members, i)} :: 0 <= i < |members| ==> SafeAt(members, i))
    && (forall i, j :: 0 <= i < j < |members| ==> members[i].name != members[j].name)
    && Total(members) <= MAX_TOTAL_SIZE
  }

  lemma {:induction false} TotalGrows(members: Members, k: nat)
    requires k <= |members|
    ensures Total(members[..k]) <= Total(members)
  {
    if k < |members| {
      TotalGrows(members[..|members| - 1], k);
      assert members[..|members| - 1][..k] == members[..k];
    } else {
      assert members[..k] == members;
    }
  }

  /** In numbers: 1 to 10,000 members with different names, all regular, of at most 2 GiB each and 4 GiB
      together, no name empty, absolute, longer than 512 characters, with a backslash or with a double
      dot as a component. */
  lemma SafeMembersExactly(members: Members)
    ensures SafeMembers(members) <==>
              && 1 <= |members| <= 10_000 && Total(members) <= 4_294_967_296
              && (forall i, j :: 0 <= i < j < |members| ==> members[i].name != members[j].name)
              && (forall i :: 0 <= i < |members| ==>
                    && members[i].isFile && |members[i].content| <= 2_147_483_648
                    && 1 <= |members[i].name| <= 512 && members[i].name[0] != '/'
                    && '\\' !in members[i].name && ".." !in Parts(members[i].name))
  {
    if SafeMembers(members) {
      forall i | 0 <= i < |members| ensures SafeMember(members[i]) { assert SafeAt(members, i); }
    }
  }

  // The first `k` members are safe.
  ghost predicate SafeSoFar(members: Members, k: nat)
    requires k <= |members|
  {
    && k <= MAX_MEMBERS
    && (forall i {:trigger SafeAt(members, i)} :: 0 <= i < k ==> SafeAt(members, i))
    && (forall i, j :: 0 <= i < j < k ==> members[i].name != members[j].name)
    && Total(members[..k]) <= MAX_TOTAL_SIZE
  }

  lemma SafeStepExact(members: Members, k: nat)
    requires k < |members| && SafeSoFar(members, k)
    ensures SafeSoFar(members, k + 1) <==>
              && k < MAX_MEMBERS && SafeAt(members, k)
              && (forall i :: 0 <= i < k ==> members[i].name != members[k].name)
              && Total(members[..k]) + |members[k].content| <= MAX_TOTAL_SIZE
  {
    assert members[..k + 1][..k] == members[..k];
    if SafeSoFar(members, k + 1) { assert SafeAt(members, k); }
  }

  lemma SafeShrinks(members: Members, k: nat)
    requires k <= |members| && SafeMembers(members)
    ensures SafeSoFar(members, k)
  {
    TotalGrows(members, k);
  }

  ghost predicate Seen(members: Members, k: nat, names: set<string>)
    requires k <= |members|
  {
    && (forall i :: 0 <= i < k ==> members[i].name in names)
    && (forall n :: n in names ==> exists i :: 0 <= i < k && members[i].name == n)
  }

  lemma SeenGrows(members: Members, k: nat, names: set<string>)
    requires k < |members| && Seen(members, k, names)
    ensures members[k].name !in names <==> forall i :: 0 <= i < k ==> members[i].name != members[k].name
    ensures Seen(members, k + 1, names + {members[k].name})
  {
  }

  /** The loop over the members, which stops at the first that is not safe. */
  method CheckMembers(members: Members) returns (safe: bool)
    ensures safe <==> SafeMembers(members)
  {
    var names: set<string> := {};
    var total := 0;
    for k := 0 to |members|
      invariant SafeSoFar(members, k) && total == Total(members[..k]) && Seen(members, k, names)
    {
      SafeStepExact(members, k);
      SeenGrows(members, k, names);
      if SafeMembers(members) { SafeShrinks(members, k + 1); }
      if k >= MAX_MEMBERS { return false; }
      var m := members[k];
      if !SafeMember(m) || m.name in names { return false; }
      assert members[..k + 1][..k] == members[..k];
      total := total + |m.content|;
      if total > MAX_TOTAL_SIZE { return false; }
      names := names + {m.name};
    }
    assert members[..|members|] == members;
    safe := members != [];
  }

  // ---- extraction ----

  function PayloadName(r: Record): string {
    "payload/" + r.path
  }

  // The member that is looked up for a record: the lookup drops trailing slashes.
  function MemberFor(members: Members, r: Record): Option<Member> {
    Named(members, RStrip(PayloadName(r)))
  }

  function ContentFor(members: Members, r: Record): string {
    var m := MemberFor(members, r);
    if m.Some? then m.value.content else ""
  }

  // Where the records' files go below the payload directory, and what is in them.
  function FilesFor(members: Members, rs: seq<Record>): (files: seq<(Path, string)>)
    ensures |files| == |rs|
  {
    seq(|rs|, i requires 0 <= i < |rs| => (Parts(rs[i].path), ContentFor(members, rs[i])))
  }

  function Staged(members: Members, rs: seq<Record>): Tree {
    TreeOf(FilesFor(members, rs))
  }

  // The file that belongs to a record has the recorded size and digest.
  ghost predicate Delivers(c: Codec, content: string, r: Record) {
    |content| == r.size && c.digest(content) == r.digest
  }

  ghost predicate NoCollisions(files: seq<(Path, string)>) {
    forall i, j :: 0 <= i < j < |files| ==> !Collide(files[i].0, files[j].0)
  }

  lemma ApartIsDistinct(files: seq<(Path, string)>)
    requires NoCollisions(files)
    ensures Distinct(files)
  {
    forall i, j | 0 <= i < j < |files| ensures files[i].0 != files[j].0 {
      assert !Collide(files[i].0, files[j].0);
    }
  }

  // Nothing is in the way of a new file.
  ghost predicate Free(tree: Tree, path: Path) {
    forall q :: q in tree ==> !Collide(q, path)
  }

  lemma ApartIsFree(files: seq<(Path, string)>, k: nat)
    requires k < |files| && NoCollisions(files[..k + 1])
    ensures Free(TreeOf(files[..k]), files[k].0)
  {
    var before, longer := files[..k], files[..k + 1];
    assert forall i :: 0 <= i < k ==> before[i] == longer[i];
    ApartIsDistinct(before);
    TreeOfExact(before);
    forall q | q in TreeOf(before) ensures !Collide(q, files[k].0) {
      var i :| 0 <= i < k && before[i] == (q, TreeOf(before)[q]);
      assert !Collide(longer[i].0, longer[k].0);
    }
  }

  lemma FreeIsApart(files: seq<(Path, string)>, k: nat)
    requires k < |files| && NoCollisions(files[..k]) && Free(TreeOf(files[..k]), files[k].0)
    ensures NoCollisions(files[..k + 1])
  {
    var before, longer := files[..k], files[..k + 1];
    assert forall i :: 0 <= i < k ==> before[i] == longer[i];
    ApartIsDistinct(before);
    TreeOfExact(before);
    forall i, j | 0 <= i < j <= k ensures !Collide(longer[i].0, longer[j].0) {
      if j < k {
        assert !Collide(before[i].0, before[j].0);
      } else {
        assert (before[i].0, before[i].1) in before;
        assert before[i].0 in TreeOf(before);
      }
    }
  }

  // Whether the next file can be created says whether it collides with an earlier one.
  lemma FreeExact(files: seq<(Path, string)>, k: nat)
    requires k < |files| && NoCollisions(files[..k])
    ensures Free(TreeOf(files[..k]), files[k].0) <==> NoCollisions(files[..k + 1])
  {
    if NoCollisions(files[..k + 1]) { ApartIsFree(files, k); }
    if Free(TreeOf(files[..k]), files[k].0) { FreeIsApart(files, k); }
  }

  ghost predicate DeliveredAt(c: Codec, members: Members, rs: seq<Record>, i: int)
    requires 0 <= i < |rs|
  {
    MemberFor(members, rs[i]).Some? && Delivers(c, ContentFor(members, rs[i]), rs[i])
  }

  // Every record's member is found and is as recorded.
  ghost predicate AllDelivered(c: Codec, members: Members, rs: seq<Record>) {
    forall i {:trigger DeliveredAt(c, members, rs, i)} :: 0 <= i < |rs| ==> DeliveredAt(c, members, rs, i)
  }

  // Creates one file; it must not be where a file or a directory already is, nor below a file.
  method ExtractOne(c: Codec, tree: Tree, path: Path, content: string, r: Record) returns (after: Option<Tree>)
    ensures after.Some? <==> Free(tree, path) && Delivers(c, content, r)
    ensures after.Some? ==> after.value == tree[path := content]
  {
    if exists q | q in tree :: Collide(q, path) { return None; }
    if |content| != r.size || c.digest(content) != r.digest { return None; }
    return Some(tree[path := content]);
  }

  // The files of the first `k` records have been extracted.
  ghost predicate ExtractedSoFar(c: Codec, members: Members, rs: seq<Record>, files: seq<(Path, string)>, k: nat,
                                 tree: Tree)
    requires k <= |rs| == |files|
  {
    && tree == TreeOf(files[..k]) && NoCollisions(files[..k])
    && forall i {:trigger DeliveredAt(c, members, rs, i)} :: 0 <= i < k ==> DeliveredAt(c, members, rs, i)
  }

  lemma ExtractionGoesOn(c: Codec, members: Members, rs: seq<Record>, files: seq<(Path, string)>, k: nat, tree: Tree)
    requires k < |rs| == |files| && ExtractedSoFar(c, members, rs, files, k, tree)
    requires Free(tree, files[k].0) && DeliveredAt(c, members, rs, k)
    ensures ExtractedSoFar(c, members, rs, files, k + 1, tree[files[k].0 := files[k].1])
  {
    FreeExact(files, k);
    assert files[..k + 1][..k] == files[..k];
  }

  lemma ExtractionBreaksOff(c: Codec, members: Members, rs: seq<Record>, files: seq<(Path, string)>, k: nat, tree: Tree)
    requires k < |rs| == |files| && ExtractedSoFar(c, members, rs, files, k, tree)
    requires !Free(tree, files[k].0) || !DeliveredAt(c, members, rs, k)
    ensures !NoCollisions(files) || !AllDelivered(c, members, rs)
  {
    FreeExact(files, k);
    if NoCollisions(files) { FewerNoCollisions(files, k + 1); }
  }

  /** Looks the members up and extracts their files one by one. */
  method ExtractAll(c: Codec, members: Members, rs: seq<Record>) returns (staged: Option<Tree>)
    ensures staged.Some? <==> NoCollisions(FilesFor(members, rs)) && AllDelivered(c, members, rs)
    ensures staged.Some? ==> staged.value == Staged(members, rs)
  {
    var tree: Tree := map[];
    ghost var files := FilesFor(members, rs);
    for k := 0 to |rs|
      invariant ExtractedSoFar(c, members, rs, files, k, tree)
    {
      var m := MemberFor(members, rs[k]);
      var after: Option<Tree> := None;
      if m.Some? { after := ExtractOne(c, tree, Parts(rs[k].path), m.value.content, rs[k]); }
      if after.None? {
        ExtractionBreaksOff(c, members, rs, files, k, tree);
        return None;
      }
      ExtractionGoesOn(c, members, rs, files, k, tree);
      tree := after.value;
    }
    assert files[..|rs|] == files;
    return Some(tree);
  }

  lemma FewerNoCollisions(files: seq<(Path, string)>, k: nat)
    requires k <= |files| && NoCollisions(files)
    ensures NoCollisions(files[..k])
  {
  }

  // ---- metadata ----

  // The schema version of a database that passes the integrity checks and is supported.
  function DatabaseSchema(c: Codec, content: string): (version: Option<string>)
    ensures forall v :: version == Some(v) <==>
              |content| <= MAX_FILE_SIZE && c.schema(content) == Some(v) && v == "0001_initial"
  {
    var schema := c.schema(content);
    if |content| <= MAX_FILE_SIZE && schema.Some? && schema.value in SUPPORTED_SCHEMA_VERSIONS then schema else None
  }

  // The file is an object with this version and this address.
  ghost predicate States(c: Codec, content: string, version: string, address: string) {
    && |content| <= MAX_FILE_SIZE && c.parse(content).Some? && c.parse(content).value.Obj?
    && "v" <= version && address != ""
    && ValueAt(c.parse(content).value.fields, "version") == Some(Str(version))
    && ValueAt(c.parse(content).value.fields, "public_ipv4") == Some(Str(address))
  }

  // Version and address of an installation.
  function InstallState(c: Codec, content: string): (state: Option<(string, string)>)
    ensures forall version, address :: state == Some((version, address)) <==> States(c, content, version, address)
  {
    var value := c.parse(content);
    if |content| > MAX_FILE_SIZE || value.None? || !value.value.Obj? then None
    else
      var fields := value.value.fields;
      if && "version" in fields && fields["version"].Str? && "v" <= fields["version"].s
         && "public_ipv4" in fields && fields["public_ipv4"].Str? && fields["public_ipv4"].s != ""
      then Some((fields["version"].s, fields["public_ipv4"].s)) else None
  }

  ghost predicate MetadataFits(l: Layout, c: Codec, m: Manifest, staged: Tree, current: string)
    requires GoodManifest(m)
  {
    && l.database in staged && l.state in staged
    && DatabaseSchema(c, staged[l.database]) == Some(m["schema_version"].s)
    && InstallState(c, staged[l.state]) == Some((m["version"].s, m["public_ipv4"].s))
    && InstallState(c, current) == Some((m["version"].s, m["public_ipv4"].s))
  }

  function NamesOf(members: Members): set<string> {
    set m | m in members :: m.name
  }

  function ExpectedNames(rs: seq<Record>): set<string> {
    {"manifest.json"} + set r | r in rs :: PayloadName(r)
  }

  // The manifest of an archive, when its members and records are as they have to be.
  ghost predicate Announced(l: Layout, c: Codec, members: Members, m: Manifest, rs: seq<Record>) {
    && SafeMembers(members)
    && Named(members, "manifest.json").Some?
    && ParseManifest(c, Named(members, "manifest.json").value.content) == Some(m)
    && GoodRecords(l, m["files"].items, rs)
    && NamesOf(members) == ExpectedNames(rs)
  }

  /** Everything that makes an archive acceptable, with its manifest and records. */
  ghost predicate Acceptable(l: Layout, c: Codec, members: Members, current: string, m: Manifest, rs: seq<Record>) {
    && Announced(l, c, members, m, rs)
    && NoCollisions(FilesFor(members, rs)) && AllDelivered(c, members, rs)
    && MetadataFits(l, c, m, Staged(members, rs), current)
  }

  datatype Extraction = Extraction(manifest: Manifest, staged: Tree)

  method ReadManifest(l: Layout, c: Codec, members: Members) returns (r: Option<(Manifest, seq<Record>)>)
    ensures r.Some? ==> Announced(l, c, members, r.value.0, r.value.1)
    ensures r.None? ==> forall m: Manifest, rs :: !Announced(l, c, members, m, rs)
  {
    var safe := CheckMembers(members);
    if !safe { return None; }
    var manifestMember := Named(members, "manifest.json");
    if manifestMember.None? { return None; }
    var manifest := ParseManifest(c, manifestMember.value.content);
    if manifest.None? { return None; }
    var records := ManifestRecords(l, manifest.value["files"].items);
    if records.None? { return None; }
    if NamesOf(members) != ExpectedNames(records.value) {
      forall m: Manifest, rs ensures !Announced(l, c, members, m, rs) {
        if Announced(l, c, members, m, rs) { GoodRecordsUnique(l, m["files"].items, rs, records.value); }
      }
      return None;
    }
    return Some((manifest.value, records.value));
  }

  /** Validates an archive and extracts it. It succeeds exactly for the acceptable archives, and then
      hands over the manifest and exactly the recorded files. */
  method ValidateAndExtract(l: Layout, c: Codec, members: Members, current: string) returns (r: Option<Extraction>)
    requires SoundLayout(l)
    ensures r.Some? ==>
              exists rs :: && Acceptable(l, c, members, current, r.value.manifest, rs)
                           && r.value.staged == Staged(members, rs)
    ensures r.None? ==> forall m: Manifest, rs :: !Acceptable(l, c, members, current, m, rs)
  {
    var announced := ReadManifest(l, c, members);
    if announced.None? { return None; }
    var (m, rs) := announced.value;
    forall m': Manifest, rs' | Announced(l, c, members, m', rs') ensures m' == m && rs' == rs {
      GoodRecordsUnique(l, m["files"].items, rs', rs);
    }
    var staged := ExtractAll(c, members, rs);
    if staged.None? { return None; }
    var tree := staged.value;
    FixedAreStaged(l, members, m["files"].items, rs);
    var schema := DatabaseSchema(c, tree[l.database]);
    var archived, installed := InstallState(c, tree[l.state]), InstallState(c, current);
    if schema != Some(m["schema_version"].s) || archived != Some((m["version"].s, m["public_ipv4"].s))
       || archived != installed
    {
      return None;
    }
    return Some(Extraction(m, tree));
  }

  lemma GoodRecordsUnique(l: Layout, items: seq<Json>, rs: seq<Record>, other: seq<Record>)
    requires GoodRecords(l, items, rs) && GoodRecords(l, items, other)
    ensures rs == other
  {
    SameRecords(l, items, rs, other);
  }

  // The required files are among those extracted.
  lemma FixedAreStaged(l: Layout, members: Members, items: seq<Json>, rs: seq<Record>)
    requires SoundLayout(l) && GoodRecords(l, items, rs) && NoCollisions(FilesFor(members, rs))
    ensures forall p :: p in l.fixed ==> p in Staged(members, rs)
  {
    var files := FilesFor(members, rs);
    ApartIsDistinct(files);
    TreeOfExact(files);
    forall p | p in l.fixed ensures p in Staged(members, rs) {
      var i :| 0 <= i < |l.fixed| && l.fixed[i] == p;
      assert Join(l.fixed[i]) in PathsOf(rs);
      var k :| 0 <= k < |rs| && PathsOf(rs)[k] == Join(p);
      PartsJoin(p);
      assert files[k].0 == p && files[k] in files;
    }
  }

  lemma AllowedIsSomewhere(l: Layout, name: string)
    requires SoundLayout(l) && Allowed(l, name)
    ensures Parts(name) != []
  {
    forall i | 0 <= i < |l.fixed| ensures Join(l.fixed[i]) != "." {
      SplitJoin(l.fixed[i]);
      SplitComponent(".");
      assert Plain(l.fixed[i][0]);
    }
  }

  lemma FilesAreThere(files: seq<(Path, string)>)
    requires NoCollisions(files)
    ensures forall i :: 0 <= i < |files| ==> files[i].0 in TreeOf(files) && TreeOf(files)[files[i].0] == files[i].1
    ensures forall p :: p in TreeOf(files) ==> exists i :: 0 <= i < |files| && p == files[i].0
  {
    ApartIsDistinct(files);
    TreeOfExact(files);
    forall i | 0 <= i < |files|
      ensures files[i].0 in TreeOf(files) && TreeOf(files)[files[i].0] == files[i].1
    {
      assert (files[i].0, files[i].1) in files;
    }
    forall p | p in TreeOf(files) ensures exists i :: 0 <= i < |files| && p == files[i].0 {
      var i :| 0 <= i < |files| && files[i] == (p, TreeOf(files)[p]);
    }
  }

  lemma RecordsArePlain(l: Layout, items: seq<Json>, rs: seq<Record>, i: nat)
    requires SoundLayout(l) && GoodRecords(l, items, rs) && i < |rs|
    ensures PlainPath(Parts(rs[i].path))
  {
    assert GoodRecord(l, items[i], rs[i]);
    AllowedIsSomewhere(l, rs[i].path);
    PartsArePlain(rs[i].path);
  }

  // The record's file is below the payload directory, of the recorded length and digest.
  ghost predicate Extracted(c: Codec, tree: Tree, r: Record) {
    var p := Parts(r.path);
    PlainPath(p) && p in tree && Delivers(c, tree[p], r)
  }

  lemma RecordIsExtracted(l: Layout, c: Codec, members: Members, items: seq<Json>, rs: seq<Record>, i: nat)
    requires SoundLayout(l) && GoodRecords(l, items, rs) && i < |rs|
    requires NoCollisions(FilesFor(members, rs)) && AllDelivered(c, members, rs)
    ensures Extracted(c, Staged(members, rs), rs[i])
  {
    var files := FilesFor(members, rs);
    FilesAreThere(files);
    RecordsArePlain(l, items, rs, i);
    assert DeliveredAt(c, members, rs, i);
    assert files[i].0 == Parts(rs[i].path);
  }

  lemma OnlyRecordsExtracted(members: Members, rs: seq<Record>, p: Path)
    requires NoCollisions(FilesFor(members, rs)) && p in Staged(members, rs)
    ensures exists i :: 0 <= i < |rs| && p == Parts(rs[i].path)
  {
    var files := FilesFor(members, rs);
    FilesAreThere(files);
    var i :| 0 <= i < |files| && p == files[i].0;
    assert p == Parts(rs[i].path);
  }

  lemma RecordIsExpected(l: Layout, items: seq<Json>, rs: seq<Record>, i: nat)
    requires SoundLayout(l) && GoodRecords(l, items, rs) && i < |rs|
    ensures Expected(l, Parts(rs[i].path))
  {
    assert GoodRecord(l, items[i], rs[i]);
    AllowedIsSomewhere(l, rs[i].path);
    AllowedExactly(l, rs[i].path);
  }

  // The path is a fixed place of the layout, or below one of its trees.
  ghost predicate Expected(l: Layout, p: Path) {
    p in l.fixed || exists t :: t in l.trees && t < p
  }

  /** What an accepted archive has put on disk: exactly one file for each record, each below the payload
      directory, at a place of the layout, and of the recorded length and digest. */
  lemma ExtractedAsRecorded(l: Layout, c: Codec, members: Members, current: string, m: Manifest, rs: seq<Record>)
    requires SoundLayout(l) && Acceptable(l, c, members, current, m, rs)
    ensures forall i :: 0 <= i < |rs| ==> Extracted(c, Staged(members, rs), rs[i])
    ensures forall p :: p in Staged(members, rs) ==> exists i :: 0 <= i < |rs| && p == Parts(rs[i].path)
    ensures forall p :: p in Staged(members, rs) ==> Expected(l, p)
  {
    forall p | p in Staged(members, rs) ensures Expected(l, p) {
      OnlyRecordsExtracted(members, rs, p);
      var i :| 0 <= i < |rs| && p == Parts(rs[i].path);
      RecordIsExpected(l, m["files"].items, rs, i);
    }
    forall i | 0 <= i < |rs| ensures Extracted(c, Staged(members, rs), rs[i]) {
      RecordIsExtracted(l, c, members, m["files"].items, rs, i);
    }
    forall p | p in Staged(members, rs) ensures exists i :: 0 <= i < |rs| && p == Parts(rs[i].path) {
      OnlyRecordsExtracted(members, rs, p);
    }
  }

  /** Whatever is accepted is an archive of this installation: the archived and the present `install.json`
      are objects with the manifest's version and address, and the database has the manifest's schema. */
  lemma AcceptedIsOfThisInstallation(l: Layout, c: Codec, members: Members, current: string, m: Manifest,
                                     rs: seq<Record>)
    requires Acceptable(l, c, members, current, m, rs)
    ensures m.Keys == {"application", "created_at", "files", "format", "public_ipv4", "quick_check", "schema_version",
                       "version"}
    ensures m["application"] == Str("EzOpenPN") && m["quick_check"] == Str("ok") && EqualsOne(m["format"])
    ensures c.schema(Staged(members, rs)[l.database]) == Some("0001_initial") && m["schema_version"] == Str("0001_initial")
    ensures forall content :: content == current || content == Staged(members, rs)[l.state] ==>
              && c.parse(content).Some? && c.parse(content).value.Obj?
              && ValueAt(c.parse(content).value.fields, "version") == Some(m["version"])
              && ValueAt(c.parse(content).value.fields, "public_ipv4") == Some(m["public_ipv4"])
  {
    assert States(c, current, m["version"].s, m["public_ipv4"].s);
    assert States(c, Staged(members, rs)[l.state], m["version"].s, m["public_ipv4"].s);
  }

  lemma {:induction false} NamedIsThere(members: Members, name: string)
    ensures Named(members, name).Some? ==> exists i :: 0 <= i < |members| && members[i].name == name
  {
    if members != [] && members[|members| - 1].name != name {
      var before := members[..|members| - 1];
      NamedIsThere(before, name);
      if Named(before, name).Some? {
        var i :| 0 <= i < |before| && before[i].name == name;
        assert members[i].name == name;
      }
    }
  }

  // A path that ends in a slash is looked up under another record's name, or none.
  lemma StrippedIsOther(members: Members, rs: seq<Record>, i: nat) returns (j: nat)
    requires i < |rs| && rs[i].path != "" && rs[i].path[0] != '/' && RStrip(rs[i].path) != rs[i].path
    requires NamesOf(members) == ExpectedNames(rs) && MemberFor(members, rs[i]).Some?
    ensures j < |rs| && j != i && Parts(rs[j].path) == Parts(rs[i].path)
  {
    var path := rs[i].path;
    StripPayload(path);
    NamedIsThere(members, RStrip(PayloadName(rs[i])));
    var k :| 0 <= k < |members| && members[k].name == RStrip(PayloadName(rs[i]));
    assert members[k] in members && members[k].name in NamesOf(members);
    var r :| r in rs && PayloadName(r) == "payload/" + RStrip(path);
    j :| 0 <= j < |rs| && rs[j] == r;
    assert PayloadName(r)[8..] == r.path && ("payload/" + RStrip(path))[8..] == RStrip(path);
    PartsOfStripped(path);
  }

  lemma {:induction false} StripPayload(path: string)
    requires path != "" && path[0] != '/'
    ensures RStrip("payload/" + path) == "payload/" + RStrip(path) != "manifest.json"
  {
    var name := "payload/" + path;
    assert name[|name| - 1] == path[|path| - 1];
    if path[|path| - 1] == '/' {
      assert name[..|name| - 1] == "payload/" + path[..|path| - 1];
      StripPayload(path[..|path| - 1]);
    }
    assert ("payload/" + RStrip(path))[0] == 'p';
  }

  /** An archive with a record whose path ends in a slash is refused, although such a path passes every
      check of the manifest: the lookup of its member finds nothing, or the member of another record of
      the same place. */
  lemma TrailingSlashIsRefused(l: Layout, c: Codec, members: Members, current: string, m: Manifest, rs: seq<Record>,
                               i: nat)
    requires i < |rs| && rs[i].path != "" && rs[i].path[|rs[i].path| - 1] == '/'
    ensures !Acceptable(l, c, members, current, m, rs)
  {
    if Announced(l, c, members, m, rs) {
      assert GoodRecord(l, m["files"].items[i], rs[i]);
      NotFoundOrTaken(members, rs, i);
      assert MemberFor(members, rs[i]).None? ==> !DeliveredAt(c, members, rs, i);
    }
  }

  lemma NotFoundOrTaken(members: Members, rs: seq<Record>, i: nat)
    requires i < |rs| && rs[i].path != "" && rs[i].path[0] != '/' && RStrip(rs[i].path) != rs[i].path
    requires NamesOf(members) == ExpectedNames(rs)
    ensures MemberFor(members, rs[i]).None? || !NoCollisions(FilesFor(members, rs))
  {
    if MemberFor(members, rs[i]).Some? {
      var j := StrippedIsOther(members, rs, i);
      var files := FilesFor(members, rs);
      assert files[i].0 == files[j].0;
      assert Collide(files[if i < j then i else j].0, files[if i < j then j else i].0);
    }
  }
}
