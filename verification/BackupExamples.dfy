/** Installations that can be backed up but not restored. */
module BackupExamples {
  import opened Wrappers
  import opened BackupPaths
  import opened BackupManifest
  import opened BackupArchives
  import opened BackupCreation
  import opened BackupRestore
  import opened TreeReplacement

  const BACKSLASHED: Path := ["a\\b"]

  function FixedFile(l: Layout, p: Path, database: string, state: string): string {
    if p == l.database then database else if p == l.state then state else ""
  }

  // An empty file with a backslash in its name is in the first tree; every fixed file but two is empty.
  function Backslashed(l: Layout, database: string, state: string): Installation
    requires l.trees != []
  {
    Installation(map p | p in l.fixed :: FixedFile(l, p, database, state),
                 map t | t in l.trees :: if t == l.trees[0] then map[BACKSLASHED := ""] else map[])
  }

  lemma {:induction false} EmptyFiles(t: Tree)
    requires forall p :: p in t ==> t[p] == ""
    ensures SizeOf(t) == 0
    decreases |t|
  {
    if t != map[] {
      var p :| p in t;
      SizeWithout(t, p);
      EmptyFiles(t - {p});
    }
  }

  lemma TwoFiles(t: Tree, p: Path, q: Path)
    requires p in t && q in t && p != q && forall r :: r in t && r != p && r != q ==> t[r] == ""
    ensures SizeOf(t) == |t[p]| + |t[q]|
  {
    SizeWithout(t, p);
    SizeWithout(t - {p}, q);
    EmptyFiles(t - {p} - {q});
  }

  lemma {:induction false} FewerThanListed(names: set<string>, listed: seq<string>)
    requires forall n :: n in names ==> n in listed
    ensures |names| <= |listed|
  {
    if listed == [] {
      assert names == {};
    } else {
      var last := listed[|listed| - 1];
      FewerThanListed(names - {last}, listed[..|listed| - 1]);
    }
  }

  lemma BackslashedIsPresent(l: Layout, database: string, state: string)
    requires l.trees != []
    ensures Present(l, Backslashed(l, database, state)) && FileSystem(Backslashed(l, database, state))
  {
    assert Plain(BACKSLASHED[0]);
  }

  lemma BackslashedTrees(l: Layout, database: string, state: string, p: Path)
    requires l.trees != []
    ensures InTrees(Backslashed(l, database, state), l.trees, p) <==> p == l.trees[0] + BACKSLASHED
  {
    var inst := Backslashed(l, database, state);
    SamePath(l.trees[0], BACKSLASHED, p);
    if InTrees(inst, l.trees, p) {
      var i :| 0 <= i < |l.trees| && InTree(inst, l.trees[i], p);
      assert inst.trees[l.trees[i]] != map[];
    } else {
      assert !InTree(inst, l.trees[0], p);
    }
  }

  lemma BackslashedPayload(l: Layout, database: string, state: string, p: Path)
    requires SoundLayout(l) && l.trees != [] && Present(l, Backslashed(l, database, state))
    ensures var payload := PayloadOf(l, Backslashed(l, database, state));
            && (p in payload <==> p in l.fixed || p == l.trees[0] + BACKSLASHED)
            && (p in payload ==> payload[p] == FixedFile(l, p, database, state))
  {
    var inst := Backslashed(l, database, state);
    PayloadKeys(l, inst, p);
    if p == l.database || p == l.state { assert p in l.fixed; }
    if p in l.fixed {
      PayloadFixed(l, inst, p);
    } else {
      BackslashedTrees(l, database, state, p);
      PayloadTree(l, inst, 0, BACKSLASHED);
    }
  }

  // The names of the files.
  function Listed(l: Layout): (names: seq<string>)
    requires l.trees != []
    ensures |names| == |l.fixed| + 1 && forall i :: 0 <= i < |l.fixed| ==> names[i] == Join(l.fixed[i])
    ensures names[|l.fixed|] == Join(l.trees[0] + BACKSLASHED)
  {
    seq(|l.fixed|, i requires 0 <= i < |l.fixed| => Join(l.fixed[i])) + [Join(l.trees[0] + BACKSLASHED)]
  }

  lemma BackslashedIsListed(l: Layout, p: Path)
    requires l.trees != [] && (p in l.fixed || p == l.trees[0] + BACKSLASHED)
    ensures Join(p) in Listed(l)
  {
    if p in l.fixed {
      var i :| 0 <= i < |l.fixed| && l.fixed[i] == p;
      assert Listed(l)[i] == Join(p);
    } else {
      assert Listed(l)[|l.fixed|] == Join(p);
    }
  }

  lemma BackslashedNames(l: Layout, database: string, state: string)
    requires SoundLayout(l) && l.trees != [] && Present(l, Backslashed(l, database, state))
    ensures |Names(PayloadOf(l, Backslashed(l, database, state)))| <= |l.fixed| + 1
  {
    var payload := PayloadOf(l, Backslashed(l, database, state));
    forall n | n in Names(payload) ensures n in Listed(l) {
      var p :| p in payload && n == Join(p);
      BackslashedPayload(l, database, state, p);
      BackslashedIsListed(l, p);
    }
    FewerThanListed(Names(payload), Listed(l));
  }

  lemma BackslashedSize(l: Layout, database: string, state: string)
    requires SoundLayout(l) && l.trees != [] && Present(l, Backslashed(l, database, state)) && l.database != l.state
    ensures SizeOf(PayloadOf(l, Backslashed(l, database, state))) == |database| + |state|
  {
    var payload := PayloadOf(l, Backslashed(l, database, state));
    forall p | p in payload ensures payload[p] == FixedFile(l, p, database, state) {
      BackslashedPayload(l, database, state, p);
    }
    BackslashedPayload(l, database, state, l.database);
    BackslashedPayload(l, database, state, l.state);
    TwoFiles(payload, l.database, l.state);
  }

  lemma BackslashedIsSmall(l: Layout, database: string, state: string)
    requires l.trees != [] && Present(l, Backslashed(l, database, state))
    requires |database| <= MAX_FILE_SIZE && |state| <= MAX_FILE_SIZE
    ensures SmallFiles(l, Backslashed(l, database, state))
  {
  }

  /** With any database and any `install.json` that pass the checks, there is an installation that can be
      backed up and whose archive is never accepted. */
  lemma CreatedButNeverAccepted(l: Layout, c: Codec, database: string, state: string, createdAt: string,
                                members: Members, rs: seq<Record>)
    requires SoundLayout(l) && l.trees != [] && l.database != l.state && |l.fixed| + 1 <= MAX_MEMBERS - 1
    requires DatabaseSchema(c, database).Some? && InstallState(c, state).Some?
    ensures FileSystem(Backslashed(l, database, state)) && CanCreate(l, c, Backslashed(l, database, state))
    ensures IsArchiveOf(l, c, Backslashed(l, database, state), createdAt, members, rs) ==>
              forall current, m: Manifest, other :: !Acceptable(l, c, members, current, m, other)
  {
    var inst, p := Backslashed(l, database, state), l.trees[0] + BACKSLASHED;
    BackslashedIsPresent(l, database, state);
    BackslashedIsSmall(l, database, state);
    BackslashedNames(l, database, state);
    BackslashedSize(l, database, state);
    BackslashedPayload(l, database, state, p);
    BackslashInName(l.trees[0]);
    if IsArchiveOf(l, c, inst, createdAt, members, rs) {
      BackslashIsRefused(l, c, inst, createdAt, members, rs, p);
    }
  }

  lemma BackslashInName(t: Path)
    requires t != []
    ensures '\\' in Join(t + BACKSLASHED)
  {
    JoinAppends(t, BACKSLASHED);
    var name := Join(t) + "/" + BACKSLASHED[0];
    assert Join(BACKSLASHED) == BACKSLASHED[0];
    assert name[|Join(t)| + 2] == BACKSLASHED[0][1] == '\\';
  }

  /** The program's places are such a layout. */
  lemma LayoutHasExample()
    ensures SoundLayout(LAYOUT) && LAYOUT.trees != [] && LAYOUT.database != LAYOUT.state
    ensures |LAYOUT.fixed| + 1 <= MAX_MEMBERS - 1
  {
    LayoutIsSound();
    assert |LAYOUT.database[0]| == 8 && |LAYOUT.state[0]| == 5;
  }
}
