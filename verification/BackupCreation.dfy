/** Creating a backup archive (installer/backup_archive.py, `create_archive`). */
module BackupCreation {
  import opened Wrappers
  import opened Ordering
  import opened BackupPaths
  import opened BackupManifest
  import opened BackupArchives
  import opened TreeReplacement

  /** The files of an installation, by their place in the payload; the database is the snapshot. */
  datatype Installation = Installation(fixed: Tree, trees: map<Path, Tree>)

  // A tree as a file system holds it: plain paths, none inside another.
  ghost predicate FileSystemTree(t: Tree) {
    && (forall p :: p in t ==> PlainPath(p))
    && (forall p, q :: p in t && q in t && p != q ==> !Collide(p, q))
  }

  ghost predicate FileSystem(inst: Installation) {
    forall t :: t in inst.trees ==> FileSystemTree(inst.trees[t])
  }

  predicate Present(l: Layout, inst: Installation) {
    && (forall p | p in l.fixed :: p in inst.fixed)
    && (forall t | t in l.trees :: t in inst.trees)
  }

  // ---- the payload ----

  function FixedPart(inst: Installation, fixed: seq<Path>): Tree
    requires forall p :: p in fixed ==> p in inst.fixed
  {
    if fixed == [] then map[]
    else FixedPart(inst, fixed[..|fixed| - 1])[fixed[|fixed| - 1] := inst.fixed[fixed[|fixed| - 1]]]
  }

  // A tree moved below a place.
  function Under(t: Path, tree: Tree): Tree {
    map p | p in (set rel | rel in tree :: t + rel) && t <= p && p[|t|..] in tree :: tree[p[|t|..]]
  }

  function Union(parts: seq<Tree>): Tree {
    if parts == [] then map[] else Union(parts[..|parts| - 1]) + parts[|parts| - 1]
  }

  lemma {:induction false} UnionKeys(parts: seq<Tree>, p: Path)
    ensures p in Union(parts) <==> exists i :: 0 <= i < |parts| && p in parts[i]
  {
    if parts != [] {
      var before := parts[..|parts| - 1];
      UnionKeys(before, p);
      if p in Union(before) {
        var i :| 0 <= i < |before| && p in before[i];
        assert p in parts[i];
      } else {
        forall i | 0 <= i < |before| ensures p !in parts[i] { assert p !in before[i]; }
      }
    }
  }

  lemma {:induction false} UnionValue(parts: seq<Tree>, k: nat, p: Path)
    requires k < |parts| && p in parts[k]
    requires forall i :: k < i < |parts| ==> p !in parts[i]
    ensures p in Union(parts) && Union(parts)[p] == parts[k][p]
  {
    if k < |parts| - 1 { UnionValue(parts[..|parts| - 1], k, p); }
  }

  function Moved(inst: Installation, trees: seq<Path>): (parts: seq<Tree>)
    requires forall t :: t in trees ==> t in inst.trees
    ensures |parts| == |trees| && forall i :: 0 <= i < |trees| ==> parts[i] == Under(trees[i], inst.trees[trees[i]])
  {
    seq(|trees|, i requires 0 <= i < |trees| => Under(trees[i], inst.trees[trees[i]]))
  }

  function TreesPart(inst: Installation, trees: seq<Path>): Tree
    requires forall t :: t in trees ==> t in inst.trees
  {
    Union(Moved(inst, trees))
  }

  function PayloadOf(l: Layout, inst: Installation): Tree
    requires Present(l, inst)
  {
    FixedPart(inst, l.fixed) + TreesPart(inst, l.trees)
  }

  lemma UnderExact(t: Path, tree: Tree, p: Path)
    ensures p in Under(t, tree) <==> t <= p && p[|t|..] in tree
    ensures p in Under(t, tree) ==> Under(t, tree)[p] == tree[p[|t|..]]
  {
    if t <= p && p[|t|..] in tree { assert p == t + p[|t|..]; }
  }

  lemma {:induction false} FixedPartExact(inst: Installation, fixed: seq<Path>, p: Path)
    requires forall q :: q in fixed ==> q in inst.fixed
    ensures p in FixedPart(inst, fixed) <==> p in fixed
    ensures p in fixed ==> FixedPart(inst, fixed)[p] == inst.fixed[p]
  {
    if fixed != [] {
      FixedPartExact(inst, fixed[..|fixed| - 1], p);
      assert fixed == fixed[..|fixed| - 1] + [fixed[|fixed| - 1]];
    }
  }

  // Below one of the trees, at a file of it.
  predicate InTree(inst: Installation, t: Path, p: Path)
    requires t in inst.trees
  {
    t <= p && p[|t|..] in inst.trees[t]
  }

  lemma CommonExtension(s: Path, t: Path, p: Path)
    requires s <= p && t <= p
    ensures Collide(s, t)
  {
    if |s| <= |t| { assert s == t[..|s|]; } else { assert t == s[..|t|]; }
  }

  ghost predicate InTrees(inst: Installation, trees: seq<Path>, p: Path)
    requires forall t :: t in trees ==> t in inst.trees
  {
    exists i :: 0 <= i < |trees| && InTree(inst, trees[i], p)
  }

  lemma TreesPartKeys(inst: Installation, trees: seq<Path>, p: Path)
    requires forall t :: t in trees ==> t in inst.trees
    ensures p in TreesPart(inst, trees) <==> InTrees(inst, trees, p)
  {
    var parts := Moved(inst, trees);
    UnionKeys(parts, p);
    forall i | 0 <= i < |trees| ensures p in parts[i] <==> InTree(inst, trees[i], p) {
      UnderExact(trees[i], inst.trees[trees[i]], p);
    }
  }

  lemma TreesPartValue(inst: Installation, trees: seq<Path>, k: nat, p: Path)
    requires forall t :: t in trees ==> t in inst.trees
    requires k < |trees| && InTree(inst, trees[k], p)
    requires forall i :: 0 <= i < |trees| && InTree(inst, trees[i], p) ==> i == k
    ensures p in TreesPart(inst, trees) && TreesPart(inst, trees)[p] == inst.trees[trees[k]][p[|trees[k]|..]]
  {
    var parts := Moved(inst, trees);
    forall i | 0 <= i < |trees| ensures p in parts[i] <==> InTree(inst, trees[i], p) {
      UnderExact(trees[i], inst.trees[trees[i]], p);
    }
    UnderExact(trees[k], inst.trees[trees[k]], p);
    UnionValue(parts, k, p);
  }

  lemma FixedIsOutside(l: Layout, inst: Installation, p: Path)
    requires SoundLayout(l) && Present(l, inst) && p in l.fixed
    ensures !InTrees(inst, l.trees, p)
  {
    forall i | 0 <= i < |l.trees| ensures !InTree(inst, l.trees[i], p) {
      var j :| 0 <= j < |l.fixed| && l.fixed[j] == p;
      assert !Collide(l.fixed[j], l.trees[i]);
    }
  }

  /** The payload has the fixed files and the files of the trees, and nothing else. */
  lemma PayloadKeys(l: Layout, inst: Installation, p: Path)
    requires Present(l, inst)
    ensures p in PayloadOf(l, inst) <==> p in l.fixed || InTrees(inst, l.trees, p)
  {
    FixedPartExact(inst, l.fixed, p);
    TreesPartKeys(inst, l.trees, p);
  }

  lemma PayloadFixed(l: Layout, inst: Installation, p: Path)
    requires SoundLayout(l) && Present(l, inst) && p in l.fixed
    ensures p in PayloadOf(l, inst) && PayloadOf(l, inst)[p] == inst.fixed[p]
  {
    FixedPartExact(inst, l.fixed, p);
    TreesPartKeys(inst, l.trees, p);
    FixedIsOutside(l, inst, p);
  }

  // Two trees have no path in common.
  lemma OneTree(l: Layout, i: nat, k: nat, p: Path)
    requires SoundLayout(l) && i < |l.trees| && k < |l.trees|
    requires l.trees[i] <= p && l.trees[k] <= p
    ensures i == k
  {
    CommonExtension(l.trees[i], l.trees[k], p);
  }

  lemma PayloadTree(l: Layout, inst: Installation, k: nat, rel: Path)
    requires SoundLayout(l) && Present(l, inst) && k < |l.trees|
    ensures l.trees[k] + rel in PayloadOf(l, inst) <==> rel in inst.trees[l.trees[k]]
    ensures rel in inst.trees[l.trees[k]] ==>
              PayloadOf(l, inst)[l.trees[k] + rel] == inst.trees[l.trees[k]][rel]
  {
    var p := l.trees[k] + rel;
    assert p[|l.trees[k]|..] == rel;
    PayloadKeys(l, inst, p);
    TreesPartKeys(inst, l.trees, p);
    forall i | 0 <= i < |l.trees| && l.trees[i] <= p ensures i == k { OneTree(l, i, k, p); }
    forall j | 0 <= j < |l.fixed| ensures l.fixed[j] != p {
      assert !Collide(l.fixed[j], l.trees[k]);
    }
    assert InTrees(inst, l.trees, p) <==> InTree(inst, l.trees[k], p);
    if rel in inst.trees[l.trees[k]] { TreesPartValue(inst, l.trees, k, p); }
  }

  lemma CollideBelow(s: Path, t: Path, p: Path, q: Path)
    requires s <= p && t <= q && Collide(p, q)
    ensures Collide(s, t)
  {
    if p <= q {
      assert s == p[..|s|] == q[..|s|];
      CommonExtension(s, t, q);
    } else {
      assert t == q[..|t|] == p[..|t|];
      CommonExtension(s, t, p);
    }
  }

  lemma PlainBelow(t: Path, rel: Path)
    requires PlainPath(t) && PlainPath(rel)
    ensures PlainPath(t + rel)
  {
  }

  lemma TreeFileIsPlain(l: Layout, inst: Installation, i: nat, p: Path)
    requires SoundLayout(l) && Present(l, inst) && FileSystem(inst)
    requires i < |l.trees| && InTree(inst, l.trees[i], p)
    ensures PlainPath(p)
  {
    var t := l.trees[i];
    assert p == t + p[|t|..];
    PlainBelow(t, p[|t|..]);
  }

  lemma FixedIsPlain(l: Layout, p: Path)
    requires SoundLayout(l) && p in l.fixed
    ensures PlainPath(p)
  {
    var j :| 0 <= j < |l.fixed| && l.fixed[j] == p;
    assert PlainPath(l.fixed[j]);
  }

  lemma InTreesIsPlain(l: Layout, inst: Installation, p: Path)
    requires SoundLayout(l) && Present(l, inst) && FileSystem(inst) && InTrees(inst, l.trees, p)
    ensures PlainPath(p)
  {
    var i :| 0 <= i < |l.trees| && InTree(inst, l.trees[i], p);
    TreeFileIsPlain(l, inst, i, p);
  }

  lemma PayloadIsPlain(l: Layout, inst: Installation, p: Path)
    requires SoundLayout(l) && Present(l, inst) && FileSystem(inst) && p in PayloadOf(l, inst)
    ensures PlainPath(p)
  {
    PayloadKeys(l, inst, p);
    if p in l.fixed { FixedIsPlain(l, p); } else { InTreesIsPlain(l, inst, p); }
  }

  lemma FixedApartFromPayload(l: Layout, inst: Installation, f: Path, q: Path)
    requires SoundLayout(l) && Present(l, inst) && f in l.fixed && f != q
    requires q in l.fixed || InTrees(inst, l.trees, q)
    ensures !Collide(f, q)
  {
    var i :| 0 <= i < |l.fixed| && l.fixed[i] == f;
    if q in l.fixed {
      var j :| 0 <= j < |l.fixed| && l.fixed[j] == q;
      assert !Collide(l.fixed[if i < j then i else j], l.fixed[if i < j then j else i]);
    } else {
      var j :| 0 <= j < |l.trees| && InTree(inst, l.trees[j], q);
      assert !Collide(l.fixed[i], l.trees[j]);
      if Collide(f, q) { CollideBelow(f, l.trees[j], f, q); }
    }
  }

  lemma SameTreeApart(t: Path, tree: Tree, a: Path, b: Path)
    requires FileSystemTree(tree) && a in tree && b in tree && a != b
    ensures !Collide(t + a, t + b)
  {
    assert !Collide(a, b);
    assert (t + a)[|t|..] == a && (t + b)[|t|..] == b;
  }

  lemma OtherTreesApart(l: Layout, i: nat, j: nat, p: Path, q: Path)
    requires SoundLayout(l) && i < |l.trees| && j < |l.trees| && i != j
    requires l.trees[i] <= p && l.trees[j] <= q
    ensures !Collide(p, q)
  {
    assert !Collide(l.trees[if i < j then i else j], l.trees[if i < j then j else i]);
    if Collide(p, q) { CollideBelow(l.trees[i], l.trees[j], p, q); }
  }

  lemma TreeFilesApart(l: Layout, inst: Installation, i: nat, p: Path, q: Path)
    requires SoundLayout(l) && Present(l, inst) && FileSystem(inst) && p != q && i < |l.trees|
    requires InTree(inst, l.trees[i], p) && InTree(inst, l.trees[i], q)
    ensures !Collide(p, q)
  {
    var t := l.trees[i];
    assert p == t + p[|t|..] && q == t + q[|t|..];
    SameTreeApart(t, inst.trees[t], p[|t|..], q[|t|..]);
  }

  lemma TreesApartFromEachOther(l: Layout, inst: Installation, p: Path, q: Path)
    requires SoundLayout(l) && Present(l, inst) && FileSystem(inst) && p != q
    requires InTrees(inst, l.trees, p) && InTrees(inst, l.trees, q)
    ensures !Collide(p, q)
  {
    var i :| 0 <= i < |l.trees| && InTree(inst, l.trees[i], p);
    var j :| 0 <= j < |l.trees| && InTree(inst, l.trees[j], q);
    if i == j { TreeFilesApart(l, inst, i, p, q); } else { OtherTreesApart(l, i, j, p, q); }
  }

  /** The payload is itself a tree a file system can hold. */
  lemma PayloadIsTree(l: Layout, inst: Installation)
    requires SoundLayout(l) && Present(l, inst) && FileSystem(inst)
    ensures FileSystemTree(PayloadOf(l, inst))
  {
    var payload := PayloadOf(l, inst);
    forall p | p in payload ensures PlainPath(p) { PayloadIsPlain(l, inst, p); }
    forall p, q | p in payload && q in payload && p != q ensures !Collide(p, q) {
      PayloadKeys(l, inst, p);
      PayloadKeys(l, inst, q);
      if p in l.fixed {
        FixedApartFromPayload(l, inst, p, q);
      } else if q in l.fixed {
        FixedApartFromPayload(l, inst, q, p);
      } else {
        TreesApartFromEachOther(l, inst, p, q);
      }
    }
  }

  // ---- collecting it ----

  ghost function SizeOf(t: Tree): nat {
    if t == map[] then 0
    else
      var p :| p in t;
      |t[p]| + SizeOf(t - {p})
  }

  lemma {:induction false} SizeWithout(t: Tree, q: Path)
    requires q in t
    ensures SizeOf(t) == |t[q]| + SizeOf(t - {q})
    decreases |t|
  {
    var p :| p in t && SizeOf(t) == |t[p]| + SizeOf(t - {p});
    if p != q {
      SizeWithout(t - {p}, q);
      SizeWithout(t - {q}, p);
      assert t - {p} - {q} == t - {q} - {p};
    }
  }

  lemma SizeAdds(t: Tree, q: Path, content: string)
    requires q !in t
    ensures SizeOf(t[q := content]) == SizeOf(t) + |content|
  {
    SizeWithout(t[q := content], q);
    assert t[q := content] - {q} == t;
  }

  ghost predicate AllSmall(t: Tree) {
    forall p :: p in t ==> |t[p]| <= MAX_FILE_SIZE
  }

  // The fixed files, in order.
  method CollectFixed(l: Layout, inst: Installation) returns (payload: Tree, total: nat, ok: bool)
    requires SoundLayout(l)
    ensures ok <==> (forall p :: p in l.fixed ==> p in inst.fixed && |inst.fixed[p]| <= MAX_FILE_SIZE)
    ensures ok ==> payload == FixedPart(inst, l.fixed) && total == SizeOf(payload)
  {
    payload, total := map[], 0;
    for i := 0 to |l.fixed|
      invariant forall j :: 0 <= j < i ==> l.fixed[j] in inst.fixed && |inst.fixed[l.fixed[j]]| <= MAX_FILE_SIZE
      invariant payload == FixedPart(inst, l.fixed[..i]) && total == SizeOf(payload)
    {
      var p := l.fixed[i];
      if p !in inst.fixed || |inst.fixed[p]| > MAX_FILE_SIZE {
        assert p in l.fixed;
        return payload, total, false;
      }
      assert l.fixed[..i + 1][..i] == l.fixed[..i];
      FixedPartExact(inst, l.fixed[..i], p);
      forall j | 0 <= j < i ensures l.fixed[..i][j] != p { assert !Collide(l.fixed[j], l.fixed[i]); }
      SizeAdds(payload, p, inst.fixed[p]);
      payload := payload[p := inst.fixed[p]];
      total := total + |inst.fixed[p]|;
    }
    assert l.fixed[..|l.fixed|] == l.fixed;
    ok := true;
  }

  // The listed files of a tree, below a place.
  ghost function MovedFiles(t: Path, tree: Tree, rels: seq<Path>): Tree
    requires forall rel :: rel in rels ==> rel in tree
  {
    if rels == [] then map[]
    else MovedFiles(t, tree, rels[..|rels| - 1])[t + rels[|rels| - 1] := tree[rels[|rels| - 1]]]
  }

  lemma {:induction false} MovedFilesExact(t: Path, tree: Tree, rels: seq<Path>, p: Path)
    requires forall rel :: rel in rels ==> rel in tree
    ensures p in MovedFiles(t, tree, rels) <==> t <= p && p[|t|..] in rels
    ensures p in MovedFiles(t, tree, rels) ==> MovedFiles(t, tree, rels)[p] == tree[p[|t|..]]
  {
    if rels != [] {
      var before, last := rels[..|rels| - 1], rels[|rels| - 1];
      MovedFilesExact(t, tree, before, p);
      assert rels == before + [last];
      SamePath(t, last, p);
    }
  }

  lemma SamePath(t: Path, rel: Path, p: Path)
    ensures p == t + rel <==> t <= p && p[|t|..] == rel
  {
    if t <= p { assert p == t + p[|t|..]; }
  }

  lemma SameTree(a: Tree, b: Tree)
    requires forall p :: p in a <==> p in b
    requires forall p :: p in a ==> a[p] == b[p]
    ensures a == b
  {
  }

  // All relative paths of the tree, in some order.
  ghost predicate Listing(tree: Tree, rels: seq<Path>) {
    forall rel :: rel in rels <==> rel in tree
  }

  lemma MovedFilesAreUnder(t: Path, tree: Tree, rels: seq<Path>)
    requires Listing(tree, rels)
    ensures MovedFiles(t, tree, rels) == Under(t, tree)
  {
    var a, b := MovedFiles(t, tree, rels), Under(t, tree);
    forall p ensures (p in a <==> p in b) && (p in a ==> a[p] == b[p]) {
      MovedFilesExact(t, tree, rels, p);
      UnderExact(t, tree, p);
    }
    SameTree(a, b);
  }

  lemma MoveOne(t: Path, tree: Tree, before: Tree, rels: seq<Path>, rel: Path)
    requires (forall r :: r in rels ==> r in tree) && rel in tree && rel !in rels && t + rel !in before
    ensures t + rel !in before + MovedFiles(t, tree, rels)
    ensures before + MovedFiles(t, tree, rels + [rel]) == (before + MovedFiles(t, tree, rels))[t + rel := tree[rel]]
  {
    MovedFilesExact(t, tree, rels, t + rel);
    SamePath(t, rel, t + rel);
    assert (rels + [rel])[..|rels|] == rels;
  }

  // The files of one tree, in the order of some listing.
  method CollectTree(t: Path, tree: Tree, before: Tree, size: nat)
    returns (payload: Tree, total: nat, ok: bool, ghost rels: seq<Path>)
    requires size == SizeOf(before) && forall rel :: rel in tree ==> t + rel !in before
    ensures ok <==> AllSmall(tree)
    ensures ok ==> Listing(tree, rels) && payload == before + MovedFiles(t, tree, rels) && total == SizeOf(payload)
  {
    payload, total, rels := before, size, [];
    var rest := tree.Keys;
    while rest != {}
      invariant rest <= tree.Keys && forall rel :: rel in rels <==> rel in tree && rel !in rest
      invariant forall rel :: rel in rels ==> |tree[rel]| <= MAX_FILE_SIZE
      invariant payload == before + MovedFiles(t, tree, rels) && total == SizeOf(payload)
      decreases rest
    {
      var rel :| rel in rest;
      if |tree[rel]| > MAX_FILE_SIZE { return payload, total, false, rels; }
      MoveOne(t, tree, before, rels, rel);
      SizeAdds(payload, t + rel, tree[rel]);
      payload := payload[t + rel := tree[rel]];
      total := total + |tree[rel]|;
      rels := rels + [rel];
      rest := rest - {rel};
    }
    ok := true;
  }

  lemma TreeIsNew(l: Layout, inst: Installation, j: nat, rel: Path)
    requires SoundLayout(l) && Present(l, inst) && j < |l.trees|
    ensures l.trees[j] + rel !in FixedPart(inst, l.fixed) + Union(Moved(inst, l.trees)[..j])
  {
    var p, parts := l.trees[j] + rel, Moved(inst, l.trees);
    FixedPartExact(inst, l.fixed, p);
    forall i | 0 <= i < |l.fixed| ensures l.fixed[i] != p { assert !Collide(l.fixed[i], l.trees[j]); }
    UnionKeys(parts[..j], p);
    forall i | 0 <= i < j ensures p !in parts[..j][i] {
      UnderExact(l.trees[i], inst.trees[l.trees[i]], p);
      if l.trees[i] <= p { OneTree(l, i, j, p); }
    }
  }

  lemma OneMorePart(fixed: Tree, parts: seq<Tree>, j: nat)
    requires j < |parts|
    ensures fixed + Union(parts[..j]) + parts[j] == fixed + Union(parts[..j + 1])
  {
    assert parts[..j + 1][..j] == parts[..j];
  }

  // No file is beyond the size limit.
  ghost predicate SmallFiles(l: Layout, inst: Installation)
    requires Present(l, inst)
  {
    && (forall p :: p in l.fixed ==> |inst.fixed[p]| <= MAX_FILE_SIZE)
    && (forall i :: 0 <= i < |l.trees| ==> AllSmall(inst.trees[l.trees[i]]))
  }

  // The payload before and after each tree: tree `j` is new to stage `j`, and stage `j + 1` has it.
  ghost predicate StageAt(trees: seq<Path>, contents: seq<Tree>, stages: seq<Tree>, j: int)
    requires 0 <= j < |trees| == |contents| == |stages| - 1
  {
    && (forall rels {:trigger MovedFiles(trees[j], contents[j], rels)} :: Listing(contents[j], rels) ==>
          stages[j + 1] == stages[j] + MovedFiles(trees[j], contents[j], rels))
    && forall rel :: rel in contents[j] ==> trees[j] + rel !in stages[j]
  }

  ghost predicate AreStages(trees: seq<Path>, contents: seq<Tree>, stages: seq<Tree>) {
    && |trees| == |contents| == |stages| - 1
    && forall j {:trigger StageAt(trees, contents, stages, j)} :: 0 <= j < |trees| ==> StageAt(trees, contents, stages, j)
  }

  // The trees, one after the other.
  method CollectTrees(trees: seq<Path>, contents: seq<Tree>, fixed: Tree, size: nat, ghost stages: seq<Tree>)
    returns (payload: Tree, total: nat, ok: bool)
    requires AreStages(trees, contents, stages) && stages[0] == fixed && size == SizeOf(fixed)
    ensures ok <==> forall j :: 0 <= j < |trees| ==> AllSmall(contents[j])
    ensures ok ==> payload == stages[|trees|] && total == SizeOf(payload)
  {
    payload, total, ok := fixed, size, true;
    for j := 0 to |trees|
      invariant forall i :: 0 <= i < j ==> AllSmall(contents[i])
      invariant payload == stages[j] && total == SizeOf(payload) && ok
    {
      assert StageAt(trees, contents, stages, j);
      ghost var rels;
      payload, total, ok, rels := CollectTree(trees[j], contents[j], payload, total);
      if !ok { return; }
    }
  }

  function Contents(l: Layout, inst: Installation): (contents: seq<Tree>)
    requires Present(l, inst)
    ensures |contents| == |l.trees| && forall i :: 0 <= i < |contents| ==> contents[i] == inst.trees[l.trees[i]]
  {
    seq(|l.trees|, i requires 0 <= i < |l.trees| => inst.trees[l.trees[i]])
  }

  ghost function StagesOf(fixed: Tree, parts: seq<Tree>): (stages: seq<Tree>)
    ensures |stages| == |parts| + 1
    ensures forall j :: 0 <= j <= |parts| ==> stages[j] == fixed + Union(parts[..j])
  {
    seq(|parts| + 1, j requires 0 <= j <= |parts| => fixed + Union(parts[..j]))
  }

  lemma StagesEnds(fixed: Tree, parts: seq<Tree>)
    ensures StagesOf(fixed, parts)[0] == fixed
    ensures StagesOf(fixed, parts)[|parts|] == fixed + Union(parts)
  {
    assert parts[..|parts|] == parts;
    assert fixed + Union(parts[..0]) == fixed;
  }

  ghost function Stages(l: Layout, inst: Installation): (stages: seq<Tree>)
    requires Present(l, inst)
  {
    StagesOf(FixedPart(inst, l.fixed), Moved(inst, l.trees))
  }

  lemma StageFits(l: Layout, inst: Installation, j: nat)
    requires SoundLayout(l) && Present(l, inst) && j < |l.trees|
    ensures StageAt(l.trees, Contents(l, inst), Stages(l, inst), j)
  {
    var contents, stages, parts := Contents(l, inst), Stages(l, inst), Moved(inst, l.trees);
    OneMorePart(FixedPart(inst, l.fixed), parts, j);
    forall rels | Listing(contents[j], rels)
      ensures stages[j + 1] == stages[j] + MovedFiles(l.trees[j], contents[j], rels)
    {
      MovedFilesAreUnder(l.trees[j], contents[j], rels);
    }
    forall rel | rel in contents[j] ensures l.trees[j] + rel !in stages[j] { TreeIsNew(l, inst, j, rel); }
  }

  lemma StagesFit(l: Layout, inst: Installation)
    requires SoundLayout(l) && Present(l, inst)
    ensures AreStages(l.trees, Contents(l, inst), Stages(l, inst))
  {
    forall j | 0 <= j < |l.trees| ensures StageAt(l.trees, Contents(l, inst), Stages(l, inst), j) {
      StageFits(l, inst, j);
    }
  }

  lemma FirstAndLastStage(l: Layout, inst: Installation)
    requires Present(l, inst)
    ensures Stages(l, inst)[0] == FixedPart(inst, l.fixed)
    ensures Stages(l, inst)[|l.trees|] == PayloadOf(l, inst)
  {
    StagesEnds(FixedPart(inst, l.fixed), Moved(inst, l.trees));
  }

  /** Copies everything that belongs into a backup, and adds up the sizes. */
  method CollectPayload(l: Layout, inst: Installation) returns (payload: Tree, total: nat, ok: bool)
    requires SoundLayout(l)
    ensures ok <==> Present(l, inst) && SmallFiles(l, inst)
    ensures ok ==> payload == PayloadOf(l, inst) && total == SizeOf(payload)
  {
    payload, total, ok := CollectFixed(l, inst);
    if !ok || !Present(l, inst) { return payload, total, false; }
    StagesFit(l, inst);
    FirstAndLastStage(l, inst);
    payload, total, ok := CollectTrees(l.trees, Contents(l, inst), payload, total, Stages(l, inst));
  }

  // ---- records and members ----

  function RecordFor(c: Codec, p: Path, content: string): Record {
    Record(Join(p), c.digest(content), |content|)
  }

  function RecordJson(r: Record): Json {
    Obj(map["path" := Str(r.path), "sha256" := Str(r.digest), "size" := Int(r.size)])
  }

  function RecordsJson(rs: seq<Record>): (items: seq<Json>)
    ensures |items| == |rs| && forall i :: 0 <= i < |rs| ==> items[i] == RecordJson(rs[i])
  {
    seq(|rs|, i requires 0 <= i < |rs| => RecordJson(rs[i]))
  }

  function ManifestOf(rs: seq<Record>, schema: string, state: (string, string), createdAt: string): Manifest {
    map["application" := Str("EzOpenPN"), "created_at" := Str(createdAt), "files" := Arr(RecordsJson(rs)),
        "format" := Int(1), "public_ipv4" := Str(state.1), "quick_check" := Str("ok"),
        "schema_version" := Str(schema), "version" := Str(state.0)]
  }

  lemma ManifestIsGood(rs: seq<Record>, schema: string, state: (string, string), createdAt: string)
    requires schema in SUPPORTED_SCHEMA_VERSIONS
    ensures var m := ManifestOf(rs, schema, state, createdAt);
            && GoodManifest(m) && m["files"] == Arr(RecordsJson(rs)) && m["schema_version"] == Str(schema)
            && m["version"] == Str(state.0) && m["public_ipv4"] == Str(state.1)
  {
  }

  lemma ManifestFields(rs: seq<Record>, schema: string, state: (string, string), createdAt: string)
    ensures var m := ManifestOf(rs, schema, state, createdAt);
            && "version" in m && m["version"] == Str(state.0)
            && "public_ipv4" in m && m["public_ipv4"] == Str(state.1)
            && "schema_version" in m && m["schema_version"] == Str(schema)
            && "created_at" in m && m["created_at"] == Str(createdAt)
  {
  }

  lemma RecordSurvives(r: Record)
    requires HexDigest(r.digest) && r.size <= MAX_FILE_SIZE
    ensures RecordOf(RecordJson(r)) == Some(r)
  {
    assert RecordJson(r).fields.Keys == {"path", "sha256", "size"};
  }

  // The records are those of the payload's files, sorted by name.
  ghost predicate Describes(c: Codec, payload: Tree, rs: seq<Record>) {
    && StrictlySorted(PathsOf(rs))
    && (forall i :: 0 <= i < |rs| ==> RecordDescribes(c, payload, rs[i]))
    && (forall p :: p in payload ==> Join(p) in PathsOf(rs))
  }

  ghost predicate RecordDescribes(c: Codec, payload: Tree, r: Record) {
    var p := Parts(r.path);
    p in payload && r == RecordFor(c, p, payload[p])
  }

  function Names(payload: Tree): set<string> {
    set p | p in payload :: Join(p)
  }

  lemma {:induction false} SortedLength(s: seq<string>, names: set<string>)
    requires StrictlySorted(s) && forall x :: x in s <==> x in names
    ensures |s| == |names|
  {
    if s == [] {
      assert names == {};
    } else {
      var before, last := s[..|s| - 1], s[|s| - 1];
      assert s == before + [last];
      assert last in s;
      forall x ensures x in before <==> x in names - {last} {
        assert x in before ==> x != last;
      }
      SortedLength(before, names - {last});
    }
  }

  method SortRecords(c: Codec, payload: Tree) returns (rs: seq<Record>)
    requires forall p :: p in payload ==> PlainPath(p)
    ensures Describes(c, payload, rs) && |rs| == |Names(payload)|
  {
    var sorted := Sorted(Names(payload));
    ghost var names := Names(payload);
    forall x ensures x in sorted <==> x in names { assert x in names <==> x in (set y | y in sorted); }
    SortedLength(sorted, names);
    forall i | 0 <= i < |sorted| ensures Parts(sorted[i]) in payload && Join(Parts(sorted[i])) == sorted[i] {
      assert sorted[i] in names;
      var p :| p in payload && Join(p) == sorted[i];
      PartsJoin(p);
    }
    rs := seq(|sorted|, i requires 0 <= i < |sorted| && Parts(sorted[i]) in payload =>
                RecordFor(c, Parts(sorted[i]), payload[Parts(sorted[i])]));
    assert PathsOf(rs) == sorted;
    forall p | p in payload ensures Join(p) in PathsOf(rs) { assert Join(p) in names; }
  }

  function FileAt(payload: Tree, r: Record): string {
    if Parts(r.path) in payload then payload[Parts(r.path)] else ""
  }

  function PackedFiles(payload: Tree, rs: seq<Record>): (members: Members)
    ensures |members| == |rs|
    ensures forall i :: 0 <= i < |rs| ==> members[i] == Member(PayloadName(rs[i]), true, FileAt(payload, rs[i]))
  {
    seq(|rs|, i requires 0 <= i < |rs| => Member(PayloadName(rs[i]), true, FileAt(payload, rs[i])))
  }

  function Packed(c: Codec, payload: Tree, rs: seq<Record>, m: Manifest): Members {
    [Member("manifest.json", true, c.encode(Obj(m)))] + PackedFiles(payload, rs)
  }

  ghost predicate CanCreate(l: Layout, c: Codec, inst: Installation)
    requires SoundLayout(l)
  {
    && Present(l, inst) && SmallFiles(l, inst)
    && SizeOf(PayloadOf(l, inst)) <= MAX_TOTAL_SIZE && |Names(PayloadOf(l, inst))| <= MAX_MEMBERS - 1
    && DatabaseSchema(c, inst.fixed[l.database]).Some?
    && InstallState(c, inst.fixed[l.state]).Some?
  }

  ghost predicate IsArchiveOf(l: Layout, c: Codec, inst: Installation, createdAt: string, members: Members,
                              rs: seq<Record>)
    requires SoundLayout(l) && CanCreate(l, c, inst)
  {
    var payload := PayloadOf(l, inst);
    && Describes(c, payload, rs) && |rs| == |Names(payload)|
    && members == Packed(c, payload, rs, ManifestOf(rs, DatabaseSchema(c, inst.fixed[l.database]).value,
                                                    InstallState(c, inst.fixed[l.state]).value, createdAt))
  }

  /** Creates the archive of an installation: the manifest, then every file of the payload in the order
      of the names. */
  method CreateArchive(l: Layout, c: Codec, inst: Installation, createdAt: string) returns (r: Option<Members>)
    requires SoundLayout(l) && FileSystem(inst)
    ensures r.Some? <==> CanCreate(l, c, inst)
    ensures r.Some? ==> exists rs :: IsArchiveOf(l, c, inst, createdAt, r.value, rs)
  {
    var payload, total, ok := CollectPayload(l, inst);
    if !ok { return None; }
    forall p | p in payload ensures PlainPath(p) { PayloadIsPlain(l, inst, p); }
    PayloadFixed(l, inst, l.database);
    PayloadFixed(l, inst, l.state);
    var rs := SortRecords(c, payload);
    if total > MAX_TOTAL_SIZE || |rs| > MAX_MEMBERS - 1 { return None; }
    var schema := DatabaseSchema(c, payload[l.database]);
    if schema.None? { return None; }
    var state := InstallState(c, payload[l.state]);
    if state.None? { return None; }
    var members := Packed(c, payload, rs, ManifestOf(rs, schema.value, state.value, createdAt));
    assert IsArchiveOf(l, c, inst, createdAt, members, rs);
    return Some(members);
  }
}
