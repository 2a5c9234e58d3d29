/** Finding the certificate to export (runtime/internal/certsync/discover.go). */
module CertDiscovery {
  import opened Wrappers

  const MAXIMUM_PEM_SIZE := 4 * 1024 * 1024

  type IPv4 = nat

  // Go's zero time; a pair without a NotAfter is "no pair yet".
  const ZERO_TIME := 0

  /** A parsed certificate; addresses that are not IPv4 are None. */
  datatype Leaf = Leaf(raw: string, notBefore: int, notAfter: int, addresses: seq<Option<IPv4>>)

  datatype File = File(content: string, regular: bool, mode: nat)

  type Files = map<string, File>

  datatype Health = Health(address: Option<IPv4>, notAfter: int, fingerprint: string)

  /** Parsing and cryptography: `leaf` is the first certificate of a PEM text, `pairs` says whether a
      key belongs to a certificate, `fingerprint` is the hex digest of the raw certificate. */
  datatype Formats = Formats(
    leaf: string -> Option<Leaf>,
    pairs: (string, string) -> bool,
    fingerprint: string -> string,
    encode: Health -> string,
    decode: string -> Option<Health>)

  datatype Pair = Pair(
    certificatePath: string,
    privateKeyPath: string,
    certificate: string,
    privateKey: string,
    address: IPv4,
    notAfter: int,
    fingerprint: string)

  datatype Fault = CertificateSource | NoMatchingCertificate

  function ReadRegular<Name>(files: map<Name, File>, path: Name, most: nat): (content: Option<string>)
    ensures content.Some? ==> 0 < |content.value| <= most
  {
    if path in files && files[path].regular && 0 < |files[path].content| <= most
    then Some(files[path].content) else None
  }

  // ---- paths ----

  // From the last dot after the last slash to the end; empty without such a dot.
  function Extension(path: string): (e: string)
    ensures |e| <= |path| && path == path[..|path| - |e|] + e
  {
    if path == [] || path[|path| - 1] == '/' then []
    else if path[|path| - 1] == '.' then ['.']
    else
      var rest := Extension(path[..|path| - 1]);
      if rest == [] then [] else rest + [path[|path| - 1]]
  }

  function Lower(s: string): string {
    seq(|s|, i requires 0 <= i < |s| => if 'A' <= s[i] <= 'Z' then s[i] + 32 as char else s[i])
  }

  // Where the key of a certificate may be, in the order of preference.
  function KeyCandidates(path: string): seq<string> {
    var stem := path[..|path| - |Extension(path)|];
    [stem + ".key", stem + "-key.pem"]
    + (if Lower(Extension(path)) != ".pem" then [stem + ".pem"] else [])
    + [path]
  }

  // ---- one certificate ----

  predicate CertificateMatches(leaf: Leaf, wanted: IPv4, now: int, minimumValidity: int) {
    && now >= leaf.notBefore
    && leaf.notAfter >= now + minimumValidity
    && Some(wanted) in leaf.addresses
  }

  // The first candidate that is readable and belongs to the certificate.
  function FindKey(f: Formats, files: Files, certificate: string, candidates: seq<string>)
    : (found: Option<(string, string)>)
  {
    if candidates == [] then None
    else
      var key := ReadRegular(files, candidates[0], MAXIMUM_PEM_SIZE);
      if key.Some? && f.pairs(certificate, key.value) then Some((candidates[0], key.value))
      else FindKey(f, files, certificate, candidates[1..])
  }

  /** The key found is the one of the first candidate that fits, and none is found only if none fits. */
  lemma {:induction false} FindKeyIsFirst(f: Formats, files: Files, certificate: string, candidates: seq<string>)
    ensures var found := FindKey(f, files, certificate, candidates);
            && (found.Some? ==>
                  exists i :: && 0 <= i < |candidates| && candidates[i] == found.value.0
                              && Fits(f, files, certificate, candidates[i])
                              && ReadRegular(files, candidates[i], MAXIMUM_PEM_SIZE) == Some(found.value.1)
                              && forall j :: 0 <= j < i ==> !Fits(f, files, certificate, candidates[j]))
            && (found.None? ==> forall j :: 0 <= j < |candidates| ==> !Fits(f, files, certificate, candidates[j]))
  {
    if candidates != [] {
      var rest := candidates[1..];
      FindKeyIsFirst(f, files, certificate, rest);
      var found := FindKey(f, files, certificate, candidates);
      if Fits(f, files, certificate, candidates[0]) {
        assert candidates[0] == found.value.0;
      } else {
        forall j | 0 < j < |candidates| ensures candidates[j] == rest[j - 1] {}
        if found.Some? {
          var i :| && 0 <= i < |rest| && rest[i] == found.value.0 && Fits(f, files, certificate, rest[i])
                   && ReadRegular(files, rest[i], MAXIMUM_PEM_SIZE) == Some(found.value.1)
                   && forall j :: 0 <= j < i ==> !Fits(f, files, certificate, rest[j]);
          assert candidates[i + 1] == rest[i];
        }
      }
    }
  }

  predicate Fits(f: Formats, files: Files, certificate: string, candidate: string) {
    var key := ReadRegular(files, candidate, MAXIMUM_PEM_SIZE);
    key.Some? && f.pairs(certificate, key.value)
  }

  /** What the walk over the source meets. `Other`: a directory, a link, or the source itself. */
  datatype Visited = Broken | Other | Named(path: string)

  // The pair an entry stands for, if it is usable.
  function Usable(f: Formats, files: Files, v: Visited, wanted: IPv4, now: int, minimumValidity: int)
    : (pair: Option<Pair>)
  {
    if !v.Named? || Lower(Extension(v.path)) !in [".crt", ".pem"] then None
    else
      var certificate := ReadRegular(files, v.path, MAXIMUM_PEM_SIZE);
      if certificate.None? then None
      else
        var leaf := f.leaf(certificate.value);
        if leaf.None? || !CertificateMatches(leaf.value, wanted, now, minimumValidity) then None
        else
          var key := FindKey(f, files, certificate.value, KeyCandidates(v.path));
          if key.None? then None
          else Some(Pair(v.path, key.value.0, certificate.value, key.value.1, wanted,
                         leaf.value.notAfter, f.fingerprint(leaf.value.raw)))
  }

  datatype Search = Search(
    f: Formats, files: Files, walk: seq<Visited>, wanted: IPv4, now: int, minimumValidity: int)

  function At(s: Search, i: nat): Option<Pair>
    requires i < |s.walk|
  {
    Usable(s.f, s.files, s.walk[i], s.wanted, s.now, s.minimumValidity)
  }

  ghost predicate StandsFor(s: Search, pairs: seq<Option<Pair>>, i: int)
    requires 0 <= i < |s.walk| == |pairs|
  {
    pairs[i] == At(s, i)
  }

  ghost predicate Lists(s: Search, pairs: seq<Option<Pair>>) {
    && |pairs| == |s.walk|
    && forall i {:trigger StandsFor(s, pairs, i)} :: 0 <= i < |pairs| ==> StandsFor(s, pairs, i)
  }

  // What each entry of the walk stands for.
  ghost function Pairs(s: Search): (pairs: seq<Option<Pair>>)
    ensures Lists(s, pairs)
  {
    seq(|s.walk|, i requires 0 <= i < |s.walk| => At(s, i))
  }

  // Entry `k` is the first one with the latest end of validity among the first `n`.
  ghost predicate FirstLatest(pairs: seq<Option<Pair>>, k: nat, n: nat)
    requires k < n <= |pairs|
  {
    && pairs[k].Some?
    && (forall i :: 0 <= i < n && pairs[i].Some? ==> pairs[i].value.notAfter <= pairs[k].value.notAfter)
    && (forall i :: 0 <= i < k && pairs[i].Some? ==> pairs[i].value.notAfter < pairs[k].value.notAfter)
  }

  ghost predicate NoneUsable(pairs: seq<Option<Pair>>, n: nat)
    requires n <= |pairs|
  {
    forall i :: 0 <= i < n ==> pairs[i].None?
  }

  const NO_PAIR := Pair("", "", "", "", 0, ZERO_TIME, "")

  // A pair that is found ends after the zero time, so it is never taken for no pair.
  lemma FoundEndsLate(s: Search, i: nat)
    requires i < |s.walk| && At(s, i).Some? && s.now >= ZERO_TIME && s.minimumValidity > 0
    ensures At(s, i).value.notAfter > ZERO_TIME
  {
  }

  // One entry of the walk.
  method Visit(s: Search, ghost pairs: seq<Option<Pair>>, i: nat) returns (found: Option<Pair>)
    requires i < |s.walk| && Lists(s, pairs) && s.now >= ZERO_TIME && s.minimumValidity > 0
    ensures found == pairs[i]
    ensures found.Some? ==> found.value.notAfter > ZERO_TIME
  {
    assert StandsFor(s, pairs, i);
    found := At(s, i);
    if found.Some? { FoundEndsLate(s, i); }
  }

  // The walk itself; it ends early where it is broken.
  method Walk(s: Search, ghost pairs: seq<Option<Pair>>) returns (best: Pair, broken: bool)
    requires Lists(s, pairs) && s.now >= ZERO_TIME && s.minimumValidity > 0
    ensures broken <==> exists j :: 0 <= j < |s.walk| && s.walk[j].Broken?
    ensures !broken && best.notAfter == ZERO_TIME ==> NoneUsable(pairs, |pairs|)
    ensures !broken && best.notAfter != ZERO_TIME ==>
              exists k :: 0 <= k < |pairs| && FirstLatest(pairs, k, |pairs|) && pairs[k] == Some(best)
  {
    ghost var k: nat := 0;
    best := NO_PAIR;
    for i := 0 to |s.walk|
      invariant forall j :: 0 <= j < i ==> !s.walk[j].Broken?
      invariant best.notAfter >= ZERO_TIME
      invariant best.notAfter == ZERO_TIME ==> NoneUsable(pairs, i)
      invariant best.notAfter > ZERO_TIME ==> k < i && FirstLatest(pairs, k, i) && pairs[k] == Some(best)
    {
      if s.walk[i].Broken? { return best, true; }
      var found := Visit(s, pairs, i);
      if found.Some? && (best.notAfter == ZERO_TIME || found.value.notAfter > best.notAfter) {
        best, k := found.value, i;
      }
    }
    return best, false;
  }

  /** Walks the source in lexical order and keeps the best pair so far: in the end the first of the
      usable pairs that are valid longest. `source` is whether the source is a named directory and no
      link. */
  method Discover(source: bool, wanted: Option<IPv4>, now: int, minimumValidity: int,
                  f: Formats, files: Files, walk: seq<Visited>)
    returns (r: Result<Pair, Fault>)
    requires now >= ZERO_TIME
    ensures r == Failure(CertificateSource) <==>
              !source || wanted.None? || minimumValidity <= 0 || Broken in walk
    ensures wanted.Some? ==>
              var pairs := Pairs(Search(f, files, walk, wanted.value, now, minimumValidity));
              && (r == Failure(NoMatchingCertificate) ==> NoneUsable(pairs, |walk|))
              && (r.Success? ==>
                    exists k :: 0 <= k < |walk| && FirstLatest(pairs, k, |walk|) && pairs[k] == Some(r.value))
  {
    if wanted.None? || minimumValidity <= 0 || !source { return Failure(CertificateSource); }
    var s := Search(f, files, walk, wanted.value, now, minimumValidity);
    var best, broken := Walk(s, Pairs(s));
    if broken { return Failure(CertificateSource); }
    return if best.notAfter == ZERO_TIME then Failure(NoMatchingCertificate) else Success(best);
  }

  /** What a found pair is: a certificate of the wanted address, valid for long enough, and its key,
      both of a readable size, with the end of validity and the fingerprint of that certificate. */
  lemma FoundIsGood(s: Search, i: nat)
    requires i < |s.walk| && At(s, i).Some?
    ensures var pair := At(s, i).value;
            && 0 < |pair.certificate| <= MAXIMUM_PEM_SIZE && 0 < |pair.privateKey| <= MAXIMUM_PEM_SIZE
            && s.f.pairs(pair.certificate, pair.privateKey)
            && pair.address == s.wanted
            && s.f.leaf(pair.certificate).Some?
            && CertificateMatches(s.f.leaf(pair.certificate).value, s.wanted, s.now, s.minimumValidity)
            && pair.notAfter == s.f.leaf(pair.certificate).value.notAfter
            && pair.fingerprint == s.f.fingerprint(s.f.leaf(pair.certificate).value.raw)
            && s.walk[i] == Named(pair.certificatePath)
            && ReadRegular(s.files, pair.certificatePath, MAXIMUM_PEM_SIZE) == Some(pair.certificate)
            && ReadRegular(s.files, pair.privateKeyPath, MAXIMUM_PEM_SIZE) == Some(pair.privateKey)
  {
    var path := s.walk[i].path;
    var certificate := ReadRegular(s.files, path, MAXIMUM_PEM_SIZE).value;
    FindKeyIsFirst(s.f, s.files, certificate, KeyCandidates(path));
  }

  // ---- when a certificate is usable ----

  // A suffix of four characters that reads ".crt" or ".pem" in any case.
  predicate Suffix(e: string) {
    && |e| == 4 && e[0] == '.'
    && (|| (e[1] in "cC" && e[2] in "rR" && e[3] in "tT")
        || (e[1] in "pP" && e[2] in "eE" && e[3] in "mM"))
  }

  predicate IsPem(e: string)
    requires Suffix(e)
  {
    e[1] in "pP"
  }

  lemma {:induction false} ExtensionIs(stem: string, e: string)
    requires e != "" && e[0] == '.' && forall i :: 0 < i < |e| ==> e[i] != '.' && e[i] != '/'
    ensures Extension(stem + e) == e
  {
    var shorter := e[..|e| - 1];
    assert (stem + e)[..|stem + e| - 1] == stem + shorter;
    if |e| > 1 { ExtensionIs(stem, shorter); }
  }

  lemma LowerSuffix(e: string)
    requires Suffix(e)
    ensures Lower(e) == if IsPem(e) then ".pem" else ".crt"
  {
    assert forall c :: c in "cC" ==> c == 'c' || c == 'C';
    assert forall c :: c in "pP" ==> c == 'p' || c == 'P';
  }

  lemma SuffixIsExtension(stem: string, e: string)
    requires Suffix(e)
    ensures Extension(stem + e) == e && (Lower(e) == if IsPem(e) then ".pem" else ".crt")
  {
    ExtensionIs(stem, e);
    LowerSuffix(e);
  }

  lemma ExtensionIsSuffix(path: string)
    requires Lower(Extension(path)) in [".crt", ".pem"]
    ensures Suffix(Extension(path))
  {
    var e := Extension(path);
    assert |Lower(e)| == 4;
    assert forall i :: 0 <= i < 4 ==> Lower(e)[i] == if 'A' <= e[i] <= 'Z' then e[i] + 32 as char else e[i];
  }

  // The certificate is readable, of the wanted address and valid now and for long enough.
  ghost predicate GoodCertificate(f: Formats, files: Files, path: string, wanted: IPv4, now: int, minimumValidity: int) {
    var certificate := ReadRegular(files, path, MAXIMUM_PEM_SIZE);
    && certificate.Some? && f.leaf(certificate.value).Some?
    && var leaf := f.leaf(certificate.value).value;
       leaf.notBefore <= now && now + minimumValidity <= leaf.notAfter && Some(wanted) in leaf.addresses
  }

  // One of the places where its key may be has a key that belongs to it.
  ghost predicate HasKey(f: Formats, files: Files, stem: string, e: string)
    requires Suffix(e)
  {
    var certificate := ReadRegular(files, stem + e, MAXIMUM_PEM_SIZE);
    && certificate.Some?
    && (|| Fits(f, files, certificate.value, stem + ".key")
        || Fits(f, files, certificate.value, stem + "-key.pem")
        || (!IsPem(e) && Fits(f, files, certificate.value, stem + ".pem"))
        || Fits(f, files, certificate.value, stem + e))
  }

  /** A file is used exactly if its name ends in .crt or .pem in any case, its certificate is good, and a
      key that belongs to it is in one of the places beside it. */
  lemma UsableExactly(f: Formats, files: Files, stem: string, e: string, wanted: IPv4, now: int, minimumValidity: int)
    requires Suffix(e)
    ensures Usable(f, files, Named(stem + e), wanted, now, minimumValidity).Some? <==>
              GoodCertificate(f, files, stem + e, wanted, now, minimumValidity) && HasKey(f, files, stem, e)
  {
    SuffixIsExtension(stem, e);
    assert (stem + e)[..|stem|] == stem;
    var certificate := ReadRegular(files, stem + e, MAXIMUM_PEM_SIZE);
    if certificate.Some? { KeyFoundExactly(f, files, certificate.value, stem, e); }
  }

  lemma KeyFoundExactly(f: Formats, files: Files, certificate: string, stem: string, e: string)
    requires Suffix(e) && ReadRegular(files, stem + e, MAXIMUM_PEM_SIZE) == Some(certificate)
    ensures FindKey(f, files, certificate, KeyCandidates(stem + e)).Some? <==> HasKey(f, files, stem, e)
  {
    KeyPlaces(stem, e);
    AnyFits(f, files, certificate, KeyCandidates(stem + e));
  }

  /** Where the key may be, in the order in which the places are tried. */
  lemma KeyPlaces(stem: string, e: string)
    requires Suffix(e)
    ensures KeyCandidates(stem + e) ==
              if IsPem(e) then [stem + ".key", stem + "-key.pem", stem + e]
              else [stem + ".key", stem + "-key.pem", stem + ".pem", stem + e]
  {
    SuffixIsExtension(stem, e);
    assert (stem + e)[..|stem|] == stem;
  }

  lemma AnyFits(f: Formats, files: Files, certificate: string, candidates: seq<string>)
    ensures FindKey(f, files, certificate, candidates).Some? <==>
              exists c :: c in candidates && Fits(f, files, certificate, c)
  {
    FindKeyIsFirst(f, files, certificate, candidates);
    if FindKey(f, files, certificate, candidates).Some? {
      var i :| 0 <= i < |candidates| && Fits(f, files, certificate, candidates[i]);
      assert candidates[i] in candidates;
    } else {
      forall c | c in candidates ensures !Fits(f, files, certificate, c) {
        var j :| 0 <= j < |candidates| && candidates[j] == c;
      }
    }
  }

  // Nothing else is used.
  lemma OnlySuffixesAreUsed(f: Formats, files: Files, v: Visited, wanted: IPv4, now: int, minimumValidity: int)
    requires Usable(f, files, v, wanted, now, minimumValidity).Some?
    ensures v.Named? && exists stem, e :: v.path == stem + e && Suffix(e)
  {
    ExtensionIsSuffix(v.path);
    var e := Extension(v.path);
    assert v.path == v.path[..|v.path| - |e|] + e;
  }
}
