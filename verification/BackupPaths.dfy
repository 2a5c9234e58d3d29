/** Names inside a backup archive, and the paths they stand for (installer/backup_archive.py). */
module BackupPaths {

  /** The components of a relative path. */
  type Path = seq<string>

  // A component a file system can hold.
  predicate Plain(component: string) {
    component != "" && component != "." && component != ".." && '/' !in component
  }

  predicate PlainPath(p: Path) {
    p != [] && forall i | 0 <= i < |p| :: Plain(p[i])
  }

  function Split(name: string): (pieces: seq<string>)
    ensures pieces != []
  {
    if name == "" then [""]
    else
      var rest := Split(name[1..]);
      if name[0] == '/' then [""] + rest else [[name[0]] + rest[0]] + rest[1..]
  }

  // PurePosixPath drops empty components and single dots, and keeps double dots.
  function Normal(pieces: seq<string>): Path {
    if pieces == [] then []
    else (if pieces[0] == "" || pieces[0] == "." then [] else [pieces[0]]) + Normal(pieces[1..])
  }

  function Parts(name: string): Path {
    Normal(Split(name))
  }

  function Join(p: Path): string {
    if p == [] then ""
    else if |p| == 1 then p[0]
    else p[0] + "/" + Join(p[1..])
  }

  function AsPosix(p: Path): string {
    if p == [] then "." else Join(p)
  }

  lemma {:induction false} SplitComponent(c: string)
    requires '/' !in c
    ensures Split(c) == [c]
  {
    if c != "" {
      assert c == [c[0]] + c[1..];
      SplitComponent(c[1..]);
    }
  }

  lemma {:induction false} SplitFirst(c: string, rest: string)
    requires '/' !in c
    ensures Split(c + "/" + rest) == [c] + Split(rest)
  {
    var name := c + "/" + rest;
    if c == "" {
      assert name[1..] == rest;
    } else {
      assert name[1..] == c[1..] + "/" + rest;
      SplitFirst(c[1..], rest);
      assert c == [c[0]] + c[1..];
    }
  }

  lemma {:induction false} SplitJoin(p: Path)
    requires PlainPath(p)
    ensures Split(Join(p)) == p
  {
    if |p| == 1 {
      SplitComponent(p[0]);
    } else {
      var rest := p[1..];
      assert Plain(p[0]) && p == [p[0]] + rest;
      assert PlainPath(rest);
      SplitJoin(rest);
      SplitFirst(p[0], Join(rest));
    }
  }

  lemma {:induction false} NormalKeeps(p: Path)
    requires forall i :: 0 <= i < |p| ==> Plain(p[i])
    ensures Normal(p) == p
  {
    if p != [] { NormalKeeps(p[1..]); }
  }

  /** The name of a path stands for that path again. */
  lemma PartsJoin(p: Path)
    requires PlainPath(p)
    ensures Parts(Join(p)) == p
  {
    SplitJoin(p);
    NormalKeeps(p);
  }

  lemma {:induction false} JoinAppends(p: Path, q: Path)
    requires p != [] && q != []
    ensures Join(p + q) == Join(p) + "/" + Join(q)
  {
    if |p| == 1 {
      assert (p + q)[1..] == q;
    } else {
      assert (p + q)[1..] == p[1..] + q;
      JoinAppends(p[1..], q);
    }
  }

  lemma {:induction false} NormalHasNoDots(pieces: seq<string>)
    ensures forall i :: 0 <= i < |Normal(pieces)| ==> Normal(pieces)[i] != "" && Normal(pieces)[i] != "."
  {
    if pieces != [] { NormalHasNoDots(pieces[1..]); }
  }

  lemma {:induction false} SplitHasNoSlash(name: string)
    ensures forall i :: 0 <= i < |Split(name)| ==> '/' !in Split(name)[i]
  {
    if name != "" { SplitHasNoSlash(name[1..]); }
  }

  lemma {:induction false} NormalIsPart(pieces: seq<string>)
    ensures forall i :: 0 <= i < |Normal(pieces)| ==> Normal(pieces)[i] in pieces
  {
    if pieces != [] {
      NormalIsPart(pieces[1..]);
      assert forall c :: c in pieces[1..] ==> c in pieces;
    }
  }

  /** A name without double dots stands for a path below the directory it is joined to. */
  lemma PartsArePlain(name: string)
    requires ".." !in Parts(name) && Parts(name) != []
    ensures PlainPath(Parts(name))
  {
    NormalHasNoDots(Split(name));
    SplitHasNoSlash(name);
    NormalIsPart(Split(name));
    forall i | 0 <= i < |Parts(name)| ensures Plain(Parts(name)[i]) {
      assert Parts(name)[i] in Parts(name);
    }
  }

  // Without its trailing slashes.
  function RStrip(name: string): (stripped: string)
    ensures stripped <= name && (stripped == "" || stripped[|stripped| - 1] != '/')
    ensures forall i :: |stripped| <= i < |name| ==> name[i] == '/'
    ensures stripped == name <==> name == "" || name[|name| - 1] != '/'
  {
    if name != "" && name[|name| - 1] == '/' then RStrip(name[..|name| - 1]) else name
  }

  lemma {:induction false} SplitTrailing(name: string)
    ensures Split(name + "/") == Split(name) + [""]
  {
    var longer := name + "/";
    if name == "" {
      assert longer[1..] == "";
    } else {
      assert longer[1..] == name[1..] + "/";
      SplitTrailing(name[1..]);
    }
  }

  lemma {:induction false} NormalTrailing(pieces: seq<string>)
    ensures Normal(pieces + [""]) == Normal(pieces)
  {
    if pieces == [] {
      assert (pieces + [""])[1..] == [];
    } else {
      assert (pieces + [""])[1..] == pieces[1..] + [""];
      NormalTrailing(pieces[1..]);
    }
  }

  lemma {:induction false} PartsOfStripped(name: string)
    ensures Parts(RStrip(name)) == Parts(name)
  {
    if name != "" && name[|name| - 1] == '/' {
      var shorter := name[..|name| - 1];
      assert name == shorter + "/";
      PartsOfStripped(shorter);
      SplitTrailing(shorter);
      NormalTrailing(Split(shorter));
    }
  }

  lemma PlainTail(p: Path)
    requires PlainPath(p) && |p| > 1
    ensures PlainPath(p[1..])
  {
    var tail := p[1..];
    assert forall i :: 0 <= i < |tail| ==> tail[i] == p[i + 1];
  }

  // The name of a path ends in a character of its last component.
  lemma {:induction false} JoinEnds(p: Path)
    requires PlainPath(p)
    ensures Join(p) != "" && Join(p)[|Join(p)| - 1] != '/'
  {
    assert Plain(p[0]);
    if |p| == 1 {
      assert p[0][|p[0]| - 1] in p[0];
    } else {
      PlainTail(p);
      JoinEnds(p[1..]);
    }
  }

  lemma {:induction false} SplitBelow(t: Path, rest: string)
    requires PlainPath(t)
    ensures Split(Join(t) + "/" + rest) == t + Split(rest)
  {
    assert Plain(t[0]);
    if |t| == 1 {
      SplitFirst(t[0], rest);
    } else {
      var tail := t[1..];
      PlainTail(t);
      SplitBelow(tail, rest);
      SplitFirst(t[0], Join(tail) + "/" + rest);
      assert Join(t) + "/" + rest == t[0] + "/" + (Join(tail) + "/" + rest);
      assert t == [t[0]] + tail;
    }
  }

  // A joined path reads as another with a slash and more exactly if it is further down.
  lemma JoinBelow(t: Path, p: Path)
    requires PlainPath(t) && PlainPath(p)
    ensures Join(t) + "/" <= Join(p) <==> t < p
  {
    if Join(t) + "/" <= Join(p) {
      var rest := Join(p)[|Join(t)| + 1..];
      assert Join(p) == Join(t) + "/" + rest;
      SplitBelow(t, rest);
      SplitJoin(p);
    } else if t < p {
      assert p == t + p[|t|..];
      JoinAppends(t, p[|t|..]);
    }
  }

  // Two files cannot be where one path is a prefix of the other.
  predicate Collide(p: Path, q: Path) {
    p <= q || q <= p
  }
}
