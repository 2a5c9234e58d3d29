/** Removing secrets from log text (installer/sanitize_logs.py). */
module LogRedaction {
  import opened Wrappers

  const MARKER := "<redacted>"

  /** What the regular expressions leave to the character tables: case folding and white space. */
  datatype Classes = Classes(fold: char -> char, space: char -> bool)

  // White space is not affected by folding, and within ASCII both tables are the usual ones.
  ghost predicate Usual(k: Classes) {
    && (forall c :: k.space(c) ==> k.fold(c) == c)
    && (forall c :: c < 128 as char && !('A' <= c <= 'Z') ==> k.fold(c) == c)
    && (forall c :: '!' <= c <= '~' ==> !k.space(c))
  }

  predicate OccursAt(v: string, t: string, i: int) {
    0 <= i && i + |v| <= |t| && t[i..i + |v|] == v
  }

  ghost predicate Occurs(v: string, t: string) {
    exists i :: OccursAt(v, t, i)
  }

  // ---- patterns ----

  /** `Literal` is a stored value; `Link` the share links; `Credential` the value of a
      token=, secret= or password= pair. */
  datatype Pattern = Literal(value: string) | Link(classes: Classes) | Credential(classes: Classes)

  const LINK_WORDS := ["vless://", "hysteria2://"]
  const CREDENTIAL_WORDS := ["token=", "secret=", "password="]

  // The text reads as the word, up to case.
  predicate Folds(k: Classes, word: string, text: string) {
    |text| == |word| && forall j | 0 <= j < |word| :: k.fold(text[j]) == word[j]
  }

  predicate WordAt(k: Classes, word: string, t: string, i: nat) {
    i + |word| <= |t| && Folds(k, word, t[i..i + |word|])
  }

  predicate Stops(p: Pattern, c: char)
    requires !p.Literal?
  {
    p.classes.space(c) || (p.Credential? && c == '&')
  }

  // The end of the run of characters that do not stop the pattern.
  function RunEnd(p: Pattern, t: string, i: nat): (end: nat)
    requires !p.Literal? && i <= |t|
    ensures i <= end <= |t|
    ensures forall j :: i <= j < end ==> !Stops(p, t[j])
    ensures end < |t| ==> Stops(p, t[end])
    decreases |t| - i
  {
    if i == |t| || Stops(p, t[i]) then i else RunEnd(p, t, i + 1)
  }

  function Words(p: Pattern): seq<string>
    requires !p.Literal?
  {
    if p.Link? then LINK_WORDS else CREDENTIAL_WORDS
  }

  // Where the text of a match that starts at `i` is replaced, for the given word.
  function WordMatch(p: Pattern, word: string, t: string, i: nat): Option<(nat, nat)>
    requires !p.Literal?
  {
    if !WordAt(p.classes, word, t, i) then None
    else
      var end := RunEnd(p, t, i + |word|);
      if end == i + |word| then None
      else Some((if p.Link? then i else i + |word|, end))
  }

  function FirstMatch(p: Pattern, words: seq<string>, t: string, i: nat): Option<(nat, nat)>
    requires !p.Literal?
  {
    if words == [] then None
    else
      var m := WordMatch(p, words[0], t, i);
      if m.Some? then m else FirstMatch(p, words[1..], t, i)
  }

  // The part to be replaced if the pattern matches at `i`: it is not empty.
  function MatchAt(p: Pattern, t: string, i: nat): Option<(nat, nat)> {
    if p.Literal? then
      if p.value != "" && OccursAt(p.value, t, i) then Some((i, i + |p.value|)) else None
    else FirstMatch(p, Words(p), t, i)
  }

  datatype Match = Match(start: nat, from: nat, to: nat)

  lemma {:induction false} WordsMatch(p: Pattern, words: seq<string>, t: string, i: nat)
    requires !p.Literal?
    ensures FirstMatch(p, words, t, i).Some? ==>
              exists w :: w in words && FirstMatch(p, words, t, i) == WordMatch(p, w, t, i)
    ensures FirstMatch(p, words, t, i).None? ==> forall w :: w in words ==> WordMatch(p, w, t, i).None?
  {
    if words != [] { WordsMatch(p, words[1..], t, i); }
  }

  lemma MatchRange(p: Pattern, t: string, i: nat)
    ensures var m := MatchAt(p, t, i);
            m.Some? ==> i <= m.value.0 < m.value.1 <= |t|
  {
    if !p.Literal? { WordsMatch(p, Words(p), t, i); }
  }

  // The leftmost match from `i` on.
  function Find(p: Pattern, t: string, i: nat): (m: Option<Match>)
    requires i <= |t|
    ensures m.Some? ==>
              && i <= m.value.start <= m.value.from < m.value.to <= |t|
              && MatchAt(p, t, m.value.start) == Some((m.value.from, m.value.to))
              && forall j :: i <= j < m.value.start ==> MatchAt(p, t, j).None?
    ensures m.None? ==> forall j :: i <= j <= |t| ==> MatchAt(p, t, j).None?
    decreases |t| - i
  {
    MatchRange(p, t, i);
    var here := MatchAt(p, t, i);
    if here.Some? then Some(Match(i, here.value.0, here.value.1))
    else if i == |t| then None
    else Find(p, t, i + 1)
  }

  // Replaces every match, from left to right and without overlap.
  function Substitute(p: Pattern, t: string): string
    decreases |t|
  {
    var m := Find(p, t, 0);
    if m.None? then t
    else t[..m.value.from] + MARKER + Substitute(p, t[m.value.to..])
  }

  function ReplaceAll(values: seq<string>, t: string): string {
    if values == [] then t
    else ReplaceAll(values[1..], Substitute(Literal(values[0]), t))
  }

  function Redacted(k: Classes, values: seq<string>, t: string): string {
    Substitute(Credential(k), Substitute(Link(k), ReplaceAll(values, t)))
  }

  // ---- the executed loop ----

  method Longest(values: set<string>) returns (longest: string)
    requires values != {}
    ensures longest in values && forall v :: v in values ==> |v| <= |longest|
  {
    longest :| longest in values;
    var rest := values - {longest};
    while rest != {}
      invariant rest <= values && longest in values
      invariant forall v :: v in values && v !in rest ==> |v| <= |longest|
      decreases rest
    {
      var v :| v in rest;
      if |v| > |longest| { longest := v; }
      rest := rest - {v};
    }
  }

  lemma {:induction false} ReplaceOneMore(values: seq<string>, v: string, t: string)
    ensures ReplaceAll(values + [v], t) == Substitute(Literal(v), ReplaceAll(values, t))
  {
    if values == [] {
      assert [v][1..] == [];
    } else {
      assert (values + [v])[1..] == values[1..] + [v];
      ReplaceOneMore(values[1..], v, Substitute(Literal(values[0]), t));
    }
  }

  lemma NothingToReplace(t: string)
    ensures Substitute(Literal(""), t) == t
  {
  }

  // The values, longer ones first.
  ghost predicate ByLength(order: seq<string>, values: set<string>) {
    && (forall v :: v in order <==> v in values)
    && forall i, j :: 0 <= i < j < |order| ==> |order[i]| >= |order[j]|
  }

  method SortByLength(values: set<string>) returns (order: seq<string>)
    ensures ByLength(order, values)
  {
    order := [];
    var rest := values;
    while rest != {}
      invariant rest <= values && ByLength(order, values - rest)
      invariant forall i, v :: 0 <= i < |order| && v in rest ==> |order[i]| >= |v|
      decreases rest
    {
      var value := Longest(rest);
      order := order + [value];
      rest := rest - {value};
    }
    assert values - rest == values;
  }

  /** Replaces longer values first, in any order among equally long ones, then the two patterns. */
  method Redact(k: Classes, values: set<string>, text: string) returns (r: string)
    ensures exists order :: ByLength(order, values) && r == Redacted(k, order, text)
  {
    var order := SortByLength(values);
    r := text;
    for i := 0 to |order|
      invariant r == ReplaceAll(order[..i], text)
    {
      assert order[..i + 1] == order[..i] + [order[i]];
      ReplaceOneMore(order[..i], order[i], text);
      NothingToReplace(r);
      if order[i] != "" { r := Substitute(Literal(order[i]), r); }
    }
    assert order[..|order|] == order;
    r := Substitute(Link(k), r);
    r := Substitute(Credential(k), r);
    assert r == Redacted(k, order, text);
  }

  // ---- values that disappear ----

  // Placed `d` characters after the start of the marker, the value agrees with it where they overlap.
  predicate Overlaps(v: string, d: int) {
    -|v| < d < |MARKER| && forall j | 0 <= j < |v| && 0 <= d + j < |MARKER| :: v[j] == MARKER[d + j]
  }

  ghost predicate Separable(v: string) {
    v != "" && forall d :: !Overlaps(v, d)
  }

  // A separable value cannot straddle a marker.
  lemma MarkerSeparates(v: string, a: string, b: string)
    requires Separable(v) && !Occurs(v, a) && !Occurs(v, b)
    ensures !Occurs(v, a + MARKER + b)
  {
    var t := a + MARKER + b;
    forall i ensures !OccursAt(v, t, i) {
      if 0 <= i && i + |v| <= |t| {
        if i + |v| <= |a| {
          assert t[i..i + |v|] == a[i..i + |v|];
          assert !OccursAt(v, a, i);
        } else if i >= |a| + |MARKER| {
          var m := i - |a| - |MARKER|;
          assert t[i..i + |v|] == b[m..m + |v|];
          assert !OccursAt(v, b, m);
        } else {
          var d := i - |a|;
          assert !Overlaps(v, d);
          var j :| 0 <= j < |v| && 0 <= d + j < |MARKER| && v[j] != MARKER[d + j];
          assert t[i..i + |v|][j] == t[i + j] == MARKER[d + j];
        }
      }
    }
  }

  lemma PartsOccur(v: string, t: string, i: nat, j: nat)
    requires i <= j <= |t| && Occurs(v, t[i..j])
    ensures Occurs(v, t)
  {
    var m :| OccursAt(v, t[i..j], m);
    var part := t[i..j][m..m + |v|];
    assert forall x :: 0 <= x < |v| ==> part[x] == t[i + m + x];
    assert t[i + m..i + m + |v|] == part;
    assert OccursAt(v, t, i + m);
  }

  lemma AbsentFromParts(v: string, t: string, i: nat, j: nat)
    requires i <= j <= |t| && !Occurs(v, t)
    ensures !Occurs(v, t[i..j])
  {
    if Occurs(v, t[i..j]) { PartsOccur(v, t, i, j); }
  }

  // Whatever is substituted, an absent value stays absent.
  lemma {:induction false} SubstituteKeepsAbsence(p: Pattern, v: string, t: string)
    requires Separable(v) && !Occurs(v, t)
    ensures !Occurs(v, Substitute(p, t))
    decreases |t|
  {
    var m := Find(p, t, 0);
    if m.Some? {
      AbsentFromParts(v, t, 0, m.value.from);
      AbsentFromParts(v, t, m.value.to, |t|);
      assert t[m.value.to..|t|] == t[m.value.to..];
      SubstituteKeepsAbsence(p, v, t[m.value.to..]);
      MarkerSeparates(v, t[..m.value.from], Substitute(p, t[m.value.to..]));
    }
  }

  lemma {:induction false} SubstituteRemoves(v: string, t: string)
    requires Separable(v)
    ensures !Occurs(v, Substitute(Literal(v), t))
    decreases |t|
  {
    var m := Find(Literal(v), t, 0);
    if m.Some? {
      var head := t[..m.value.from];
      forall i ensures !OccursAt(v, head, i) {
        if 0 <= i && i + |v| <= |head| {
          assert MatchAt(Literal(v), t, i).None?;
          assert head[i..i + |v|] == t[i..i + |v|];
        }
      }
      SubstituteRemoves(v, t[m.value.to..]);
      MarkerSeparates(v, head, Substitute(Literal(v), t[m.value.to..]));
    } else {
      forall i ensures !OccursAt(v, t, i) {
        assert 0 <= i <= |t| ==> MatchAt(Literal(v), t, i).None?;
      }
    }
  }

  lemma {:induction false} ReplaceAllKeepsAbsence(values: seq<string>, v: string, t: string)
    requires Separable(v) && !Occurs(v, t)
    ensures !Occurs(v, ReplaceAll(values, t))
  {
    if values != [] {
      SubstituteKeepsAbsence(Literal(values[0]), v, t);
      ReplaceAllKeepsAbsence(values[1..], v, Substitute(Literal(values[0]), t));
    }
  }

  lemma {:induction false} ReplaceAllRemoves(values: seq<string>, v: string, t: string)
    requires Separable(v) && v in values
    ensures !Occurs(v, ReplaceAll(values, t))
  {
    var t' := Substitute(Literal(values[0]), t);
    if values[0] == v {
      SubstituteRemoves(v, t);
      ReplaceAllKeepsAbsence(values[1..], v, t');
    } else {
      ReplaceAllRemoves(values[1..], v, t');
    }
  }

  /** A stored value that cannot overlap the marker is nowhere in the output, whatever the text, the
      other values and their order. */
  lemma ValueIsGone(k: Classes, values: seq<string>, v: string, t: string)
    requires Separable(v) && v in values
    ensures !Occurs(v, Redacted(k, values, t))
  {
    ReplaceAllRemoves(values, v, t);
    SubstituteKeepsAbsence(Link(k), v, ReplaceAll(values, t));
    SubstituteKeepsAbsence(Credential(k), v, Substitute(Link(k), ReplaceAll(values, t)));
  }

  const MARKED := "redacted"

  predicate Plain(v: string) {
    v != "" && forall c | c in v :: c != '<' && c != '>'
  }

  lemma PlainSeparable(v: string)
    requires Plain(v) && !Occurs(v, MARKED)
    ensures Separable(v)
  {
    forall d ensures !Overlaps(v, d) {
      if -|v| < d <= 0 {
        assert v[-d] in v && MARKER[0] == '<';
      } else if 0 < d < |MARKER| {
        if d + |v| >= |MARKER| { PlainMissesEnd(v, d); } else { PlainMissesMiddle(v, d); }
      }
    }
  }

  lemma PlainMissesEnd(v: string, d: nat)
    requires Plain(v) && 0 < d < |MARKER| <= d + |v|
    ensures !Overlaps(v, d)
  {
    assert v[|MARKER| - 1 - d] in v && MARKER[|MARKER| - 1] == '>';
  }

  lemma PlainMissesMiddle(v: string, d: nat)
    requires !Occurs(v, MARKED) && 0 < d && d + |v| < |MARKER|
    ensures !Overlaps(v, d)
  {
    assert MARKED == MARKER[1..9];
    assert !OccursAt(v, MARKED, d - 1);
    var part := MARKER[d..d + |v|];
    assert MARKED[d - 1..d - 1 + |v|] == part;
    assert forall j :: 0 <= j < |v| ==> part[j] == MARKER[d + j];
  }

  // Every word ends in a character the marker does not contain.
  lemma WordEnds(p: Pattern, w: string)
    requires !p.Literal? && w in Words(p)
    ensures |w| >= 6 && w[|w| - 1] == if p.Link? then '/' else '='
  {
  }

  lemma MarkerFolds(k: Classes)
    requires Usual(k)
    ensures forall j :: 0 <= j < |MARKER| ==> k.fold(MARKER[j]) == MARKER[j] != '/' && MARKER[j] != '='
  {
  }

  lemma MarkerHasNoMatch(p: Pattern, i: nat)
    requires !p.Literal? && Usual(p.classes)
    ensures MatchAt(p, MARKER, i).None?
  {
    MarkerFolds(p.classes);
    WordsMatch(p, Words(p), MARKER, i);
    forall w | w in Words(p) ensures WordMatch(p, w, MARKER, i).None? {
      WordEnds(p, w);
      if i + |w| <= |MARKER| { assert p.classes.fold(MARKER[i..i + |w|][|w| - 1]) != w[|w| - 1]; }
    }
  }

  // A value redacted by itself leaves the bare marker.
  lemma ValueAlone(k: Classes, v: string)
    requires Usual(k) && v != ""
    ensures Redacted(k, [v], v) == MARKER
  {
    assert OccursAt(v, v, 0);
    assert MatchAt(Literal(v), v, 0) == Some((0, |v|));
    assert Find(Literal(v), v, 0) == Some(Match(0, 0, |v|));
    assert v[|v|..] == "" && v[..0] == "";
    assert Substitute(Literal(v), "") == "";
    assert Substitute(Literal(v), v) == MARKER;
    assert ReplaceAll([v], v) == MARKER;
    forall i: nat, p | p == Link(k) || p == Credential(k) ensures MatchAt(p, MARKER, i).None? {
      MarkerHasNoMatch(p, i);
    }
    assert Find(Link(k), MARKER, 0).None?;
    assert Find(Credential(k), MARKER, 0).None?;
  }

  // No text and no other values make `v` appear in the output.
  ghost predicate AlwaysGone(k: Classes, v: string) {
    forall values, t :: v in values ==> !Occurs(v, Redacted(k, values, t))
  }

  lemma PartOfTheMarkerStays(k: Classes, v: string)
    requires Usual(k) && v != "" && Occurs(v, MARKED)
    ensures Occurs(v, Redacted(k, [v], v))
  {
    PartsOccurInMarker(v);
    ValueAlone(k, v);
  }

  lemma PartsOccurInMarker(v: string)
    requires Occurs(v, MARKED)
    ensures Occurs(v, MARKER)
  {
    assert MARKED == MARKER[1..9];
    PartsOccur(v, MARKER, 1, 9);
  }

  /** For a nonempty value without angle brackets, disappearing from every output is the same as not
      being part of the word "redacted". */
  lemma GoneExactly(k: Classes, v: string)
    requires Usual(k) && Plain(v)
    ensures AlwaysGone(k, v) <==> !Occurs(v, MARKED)
  {
    if Occurs(v, MARKED) {
      PartOfTheMarkerStays(k, v);
      assert v in [v];
    } else {
      PlainSeparable(v);
      forall values, t | v in values ensures !Occurs(v, Redacted(k, values, t)) {
        ValueIsGone(k, values, v, t);
      }
    }
  }

  // ---- redacting twice ----

  lemma NotThere(v: string, t: string)
    requires !Occurs(v, t)
    ensures Substitute(Literal(v), t) == t
  {
    forall i: nat | i <= |t| ensures MatchAt(Literal(v), t, i).None? { assert !OccursAt(v, t, i); }
  }

  lemma {:induction false} NothingLeft(values: seq<string>, t: string)
    requires forall v :: v in values ==> v == "" || !Occurs(v, t)
    ensures ReplaceAll(values, t) == t
  {
    if values != [] {
      if values[0] == "" { NothingToReplace(t); } else { NotThere(values[0], t); }
      NothingLeft(values[1..], t);
    }
  }

  // The word starts at `i` and a character that belongs to the link follows.
  predicate LinkWith(k: Classes, w: string, t: string, i: nat) {
    WordAt(k, w, t, i) && i + |w| < |t| && !k.space(t[i + |w|])
  }

  predicate LinkAt(k: Classes, t: string, i: nat) {
    exists w | w in LINK_WORDS :: LinkWith(k, w, t, i)
  }

  lemma LinkAtExact(k: Classes, t: string, i: nat)
    ensures LinkAt(k, t, i) <==> MatchAt(Link(k), t, i).Some?
  {
    var p := Link(k);
    WordsMatch(p, LINK_WORDS, t, i);
    if LinkAt(k, t, i) {
      var w :| w in LINK_WORDS && LinkWith(k, w, t, i);
      assert WordMatch(p, w, t, i).Some?;
    }
  }

  ghost predicate NoLink(k: Classes, t: string) {
    forall i: nat :: !LinkAt(k, t, i)
  }

  // No link word ends at the end of the text.
  ghost predicate NoOpenLink(k: Classes, t: string) {
    forall i: nat, w :: w in LINK_WORDS && i + |w| == |t| ==> !WordAt(k, w, t, i)
  }

  lemma NoLinkAcross(k: Classes, a: string, b: string)
    requires Usual(k) && NoLink(k, a) && NoLink(k, b) && NoOpenLink(k, a)
    ensures NoLink(k, a + MARKER + b)
  {
    var t := a + MARKER + b;
    MarkerFolds(k);
    forall i: nat, w | w in LINK_WORDS && WordAt(k, w, t, i) && i + |w| < |t|
      ensures k.space(t[i + |w|])
    {
      if i + |w| <= |a| {
        assert t[i..i + |w|] == a[i..i + |w|];
        assert WordAt(k, w, a, i);
        assert !LinkAt(k, a, i);
      } else if i >= |a| + |MARKER| {
        var m := i - |a| - |MARKER|;
        assert t[i..i + |w|] == b[m..m + |w|];
        assert WordAt(k, w, b, m);
        assert !LinkAt(k, b, m);
      } else {
        WordMissesMarker(k, w, a, b, i);
      }
    }
  }

  // No link word fits into a text across the marker: it contains neither '<' nor '>', and the marker
  // alone is not part of one.
  lemma WordMissesMarker(k: Classes, w: string, a: string, b: string, i: nat)
    requires Usual(k) && w in LINK_WORDS && |a| < i + |w| && i < |a| + |MARKER|
    ensures !WordAt(k, w, a + MARKER + b, i)
  {
    var t := a + MARKER + b;
    assert w[|w| - 1] == '/' && '<' !in w && '>' !in w;
    if i + |w| <= |t| {
      if i <= |a| {
        assert t[i..i + |w|][|a| - i] == MARKER[0];
        assert w[|a| - i] in w && k.fold('<') == '<';
      } else if i + |w| >= |a| + |MARKER| {
        assert t[i..i + |w|][|a| + |MARKER| - 1 - i] == MARKER[|MARKER| - 1];
        assert w[|a| + |MARKER| - 1 - i] in w && k.fold('>') == '>';
      } else {
        MarkerFolds(k);
        assert t[i..i + |w|][|w| - 1] == MARKER[i + |w| - 1 - |a|];
      }
    }
  }

  lemma LinkWithInPart(k: Classes, w: string, t: string, lo: nat, hi: nat, i: nat)
    requires lo <= hi <= |t| && LinkWith(k, w, t[lo..hi], i)
    ensures LinkWith(k, w, t, lo + i)
  {
    var word := t[lo..hi][i..i + |w|];
    assert forall x :: 0 <= x < |w| ==> word[x] == t[lo + i + x];
    assert t[lo + i..lo + i + |w|] == word;
  }

  lemma LinkInPart(k: Classes, t: string, lo: nat, hi: nat, i: nat)
    requires lo <= hi <= |t| && LinkAt(k, t[lo..hi], i)
    ensures LinkAt(k, t, lo + i)
  {
    var w :| w in LINK_WORDS && LinkWith(k, w, t[lo..hi], i);
    LinkWithInPart(k, w, t, lo, hi, i);
  }

  lemma NoLinkInPart(k: Classes, t: string, lo: nat, hi: nat)
    requires lo <= hi <= |t| && (forall i: nat :: lo <= i < hi ==> !LinkAt(k, t, i))
    ensures NoLink(k, t[lo..hi])
  {
    forall i: nat ensures !LinkAt(k, t[lo..hi], i) {
      if LinkAt(k, t[lo..hi], i) { LinkInPart(k, t, lo, hi, i); }
    }
  }

  // The word that made the match.
  lemma MatchedWord(p: Pattern, t: string, i: nat) returns (w: string)
    requires !p.Literal? && MatchAt(p, t, i).Some?
    ensures w in Words(p) && WordAt(p.classes, w, t, i) && i + |w| < |t|
    ensures MatchAt(p, t, i) == WordMatch(p, w, t, i)
  {
    WordsMatch(p, Words(p), t, i);
    w :| w in Words(p) && MatchAt(p, t, i) == WordMatch(p, w, t, i);
  }

  // What precedes the leftmost link could not be the start of one.
  lemma BeforeLink(k: Classes, t: string, m: Match)
    requires Usual(k) && Find(Link(k), t, 0) == Some(m)
    ensures NoLink(k, t[..m.from]) && NoOpenLink(k, t[..m.from])
  {
    var word := MatchedWord(Link(k), t, m.start);
    assert t[m.start..m.start + |word|][0] == t[m.start];
    assert !k.space(t[m.start]);
    forall i: nat | i < m.start ensures !LinkAt(k, t, i) { LinkAtExact(k, t, i); }
    NoLinkInPart(k, t, 0, m.from);
    forall i: nat, w | w in LINK_WORDS && i + |w| == m.from ensures !WordAt(k, w, t[..m.from], i) {
      assert t[..m.from][i..i + |w|] == t[i..i + |w|];
      assert !LinkAt(k, t, i);
    }
  }

  lemma {:induction false} LinksAreGone(k: Classes, t: string)
    requires Usual(k)
    ensures NoLink(k, Substitute(Link(k), t))
    decreases |t|
  {
    var m := Find(Link(k), t, 0);
    if m.Some? {
      BeforeLink(k, t, m.value);
      LinksAreGone(k, t[m.value.to..]);
      NoLinkAcross(k, t[..m.value.from], Substitute(Link(k), t[m.value.to..]));
    } else {
      forall i: nat ensures !LinkAt(k, t, i) { LinkAtExact(k, t, i); }
    }
  }

  lemma NoLinkNoChange(k: Classes, t: string)
    requires NoLink(k, t)
    ensures Substitute(Link(k), t) == t
  {
    forall i: nat ensures MatchAt(Link(k), t, i).None? { LinkAtExact(k, t, i); }
  }

  // What precedes the value of a credential ends in '='.
  lemma BeforeCredential(k: Classes, t: string, m: Match)
    requires Usual(k) && Find(Credential(k), t, 0) == Some(m)
    ensures NoOpenLink(k, t[..m.from])
  {
    var a := t[..m.from];
    var word := MatchedWord(Credential(k), t, m.start);
    WordEnds(Credential(k), word);
    assert a[|a| - 1] == t[m.start..m.start + |word|][|word| - 1];
    forall i: nat, w | w in LINK_WORDS && i + |w| == |a| ensures !WordAt(k, w, a, i) {
      WordEnds(Link(k), w);
      assert a[i..i + |w|][|w| - 1] == a[|a| - 1];
    }
  }

  lemma {:induction false} CredentialsMakeNoLink(k: Classes, t: string)
    requires Usual(k) && NoLink(k, t)
    ensures NoLink(k, Substitute(Credential(k), t))
    decreases |t|
  {
    var m := Find(Credential(k), t, 0);
    if m.Some? {
      BeforeCredential(k, t, m.value);
      NoLinkInPart(k, t, 0, m.value.from);
      NoLinkInPart(k, t, m.value.to, |t|);
      assert t[..m.value.from] == t[0..m.value.from];
      assert t[m.value.to..|t|] == t[m.value.to..];
      CredentialsMakeNoLink(k, t[m.value.to..]);
      NoLinkAcross(k, t[..m.value.from], Substitute(Credential(k), t[m.value.to..]));
    }
  }

  /** No share link is left in the output. */
  lemma NoLinkRemains(k: Classes, values: seq<string>, t: string)
    requires Usual(k)
    ensures NoLink(k, Redacted(k, values, t))
  {
    LinksAreGone(k, ReplaceAll(values, t));
    CredentialsMakeNoLink(k, Substitute(Link(k), ReplaceAll(values, t)));
  }

  lemma {:induction false} RunEndIs(p: Pattern, t: string, i: nat, end: nat)
    requires !p.Literal? && i <= end <= |t|
    requires forall j :: i <= j < end ==> !Stops(p, t[j])
    requires end < |t| ==> Stops(p, t[end])
    ensures RunEnd(p, t, i) == end
    decreases end - i
  {
    if i < end { RunEndIs(p, t, i + 1, end); }
  }

  lemma OneWord(k: Classes, v: string, w: string, t: string, i: nat)
    requires v in CREDENTIAL_WORDS && w in CREDENTIAL_WORDS && WordAt(k, v, t, i) && WordAt(k, w, t, i)
    ensures v == w
  {
    assert t[i..i + |v|][0] == t[i..i + |w|][0];
  }

  // No word is the end of another.
  lemma DifferentEnds(k: Classes, v: string, w: string, t: string, i: nat, j: nat)
    requires v in CREDENTIAL_WORDS && w in CREDENTIAL_WORDS && WordAt(k, v, t, i)
    requires i + |v| == j + |w| && i != j
    ensures !WordAt(k, w, t, j)
  {
    WordEnds(Credential(k), v);
    WordEnds(Credential(k), w);
    assert t[i..i + |v|][|v| - 2] == t[j..j + |w|][|w| - 2];
    assert v[|v| - 2] != w[|w| - 2];
  }

  // A text whose first credential has become the marker, and in which nothing more belongs to it.
  ghost predicate Marked(k: Classes, t: string, m: Match, out: string) {
    && Find(Credential(k), t, 0) == Some(m)
    && m.from + |MARKER| <= |out|
    && out[..m.from] == t[..m.from] && out[m.from..m.from + |MARKER|] == MARKER
    && (m.from + |MARKER| < |out| ==> Stops(Credential(k), out[m.from + |MARKER|]))
  }

  lemma MarkedMatches(k: Classes, t: string, m: Match, out: string)
    requires Usual(k) && Marked(k, t, m, out)
    ensures MatchAt(Credential(k), out, m.start) == Some((m.from, m.from + |MARKER|))
  {
    var p := Credential(k);
    var w := MatchedWord(p, t, m.start);
    assert out[m.start..m.from] == t[m.start..m.from];
    assert WordAt(k, w, out, m.start);
    forall j | m.from <= j < m.from + |MARKER| ensures !Stops(p, out[j]) {
      assert out[j] == out[m.from..m.from + |MARKER|][j - m.from];
    }
    RunEndIs(p, out, m.from, m.from + |MARKER|);
    assert WordMatch(p, w, out, m.start).Some?;
    WordsMatch(p, Words(p), out, m.start);
    var v := MatchedWord(p, out, m.start);
    OneWord(k, v, w, out, m.start);
  }

  lemma NotEarlier(k: Classes, t: string, m: Match, out: string, i: nat, w: string)
    requires Usual(k) && Marked(k, t, m, out) && i < m.start && w in CREDENTIAL_WORDS
    requires WordMatch(Credential(k), w, t, i).None?
    ensures WordMatch(Credential(k), w, out, i).None?
  {
    var p := Credential(k);
    if i + |w| < m.from {
      assert forall x :: 0 <= x < m.from ==> out[x] == out[..m.from][x] == t[..m.from][x] == t[x];
      assert out[i..i + |w|] == t[i..i + |w|];
      assert out[i + |w|] == t[i + |w|];
    } else if i + |w| == m.from {
      var word := MatchedWord(p, t, m.start);
      DifferentEnds(k, word, w, t, m.start, i);
      assert out[i..m.from] == t[i..m.from];
    } else if i + |w| <= |out| {
      assert out[i..i + |w|][m.from - i] == out[m.from..m.from + |MARKER|][0] == '<';
      assert k.fold('<') == '<' && '<' !in w && w[m.from - i] in w;
    }
  }

  lemma NoWordBefore(p: Pattern, t: string, m: Match, i: nat, w: string)
    requires !p.Literal? && Find(p, t, 0) == Some(m) && i < m.start && w in Words(p)
    ensures WordMatch(p, w, t, i).None?
  {
    assert MatchAt(p, t, i).None?;
    WordsMatch(p, Words(p), t, i);
  }

  lemma MarkedStartsThere(k: Classes, t: string, m: Match, out: string, i: nat)
    requires Usual(k) && Marked(k, t, m, out) && i < m.start
    ensures MatchAt(Credential(k), out, i).None?
  {
    var p := Credential(k);
    WordsMatch(p, Words(p), out, i);
    forall w | w in Words(p) ensures WordMatch(p, w, out, i).None? {
      NoWordBefore(p, t, m, i, w);
      NotEarlier(k, t, m, out, i, w);
    }
  }

  lemma FindIs(p: Pattern, t: string, i: nat, m: Match)
    requires i <= m.start <= |t| && MatchAt(p, t, m.start) == Some((m.from, m.to))
    requires forall j :: i <= j < m.start ==> MatchAt(p, t, j).None?
    ensures Find(p, t, i) == Some(m)
  {
    var found := Find(p, t, i);
    assert found.Some?;
    assert MatchAt(p, t, found.value.start).Some?;
  }

  // The first character is not replaced: a credential starts with its word.
  lemma HeadStays(k: Classes, t: string)
    ensures Substitute(Credential(k), t) == "" <==> t == ""
    ensures t != "" ==> Substitute(Credential(k), t)[0] == t[0]
  {
    var m := Find(Credential(k), t, 0);
    if m.Some? {
      var w := MatchedWord(Credential(k), t, m.value.start);
      WordEnds(Credential(k), w);
    }
  }

  // What the first substitution makes of a text, around its first credential.
  lemma SubstitutedIsMarked(k: Classes, t: string, m: Match, rest: string, out: string)
    requires Find(Credential(k), t, 0) == Some(m) && rest == Substitute(Credential(k), t[m.to..])
    requires out == t[..m.from] + MARKER + rest
    ensures Marked(k, t, m, out) && out[m.from + |MARKER|..] == rest
  {
    var word := MatchedWord(Credential(k), t, m.start);
    HeadStays(k, t[m.to..]);
  }

  lemma MarkedAgain(k: Classes, t: string, m: Match, out: string)
    requires Usual(k) && Marked(k, t, m, out)
    ensures Substitute(Credential(k), out)
              == out[..m.from] + MARKER + Substitute(Credential(k), out[m.from + |MARKER|..])
  {
    MarkedMatches(k, t, m, out);
    forall j: nat | j < m.start ensures MatchAt(Credential(k), out, j).None? { MarkedStartsThere(k, t, m, out, j); }
    FindIs(Credential(k), out, 0, Match(m.start, m.from, m.from + |MARKER|));
  }

  lemma {:induction false} CredentialsTwice(k: Classes, t: string)
    requires Usual(k)
    ensures Substitute(Credential(k), Substitute(Credential(k), t)) == Substitute(Credential(k), t)
    decreases |t|
  {
    var found := Find(Credential(k), t, 0);
    if found.Some? {
      var m := found.value;
      var rest := Substitute(Credential(k), t[m.to..]);
      var out := t[..m.from] + MARKER + rest;
      SubstitutedIsMarked(k, t, m, rest, out);
      MarkedAgain(k, t, m, out);
      CredentialsTwice(k, t[m.to..]);
    }
  }

  // ---- what is left of credentials ----

  // The text reads as the word at this place, up to case.
  ghost predicate Reads(k: Classes, word: string, t: string, i: int) {
    0 <= i && i + |word| <= |t| && forall j :: 0 <= j < |word| ==> k.fold(t[i + j]) == word[j]
  }

  lemma ReadsIsWordAt(k: Classes, word: string, t: string, i: nat)
    ensures Reads(k, word, t, i) <==> WordAt(k, word, t, i)
  {
    if i + |word| <= |t| {
      var text := t[i..i + |word|];
      assert forall j :: 0 <= j < |word| ==> text[j] == t[i + j];
    }
  }

  // What ends the value of a credential.
  predicate Ends(k: Classes, c: char) {
    k.space(c) || c == '&'
  }

  // The marker is at this place, up to the end of the text or of the value.
  ghost predicate MarkedAt(k: Classes, t: string, i: int) {
    && 0 <= i && i + |MARKER| <= |t| && t[i..i + |MARKER|] == MARKER
    && (i + |MARKER| == |t| || Ends(k, t[i + |MARKER|]))
  }

  // If the word is read here with a value behind it, that value is the marker.
  ghost predicate Hidden(k: Classes, word: string, t: string, i: int) {
    Reads(k, word, t, i) && i + |word| < |t| && !Ends(k, t[i + |word|]) ==> MarkedAt(k, t, i + |word|)
  }

  ghost predicate AllHidden(k: Classes, t: string) {
    forall i: nat, word {:trigger Hidden(k, word, t, i)} :: word in CREDENTIAL_WORDS ==> Hidden(k, word, t, i)
  }

  lemma NoMatchHidden(k: Classes, t: string, word: string, i: nat)
    requires Find(Credential(k), t, 0).None? && word in CREDENTIAL_WORDS
    ensures Hidden(k, word, t, i)
  {
    if i < |t| {
      assert MatchAt(Credential(k), t, i).None?;
      WordsMatch(Credential(k), CREDENTIAL_WORDS, t, i);
      ReadsIsWordAt(k, word, t, i);
    }
  }

  // In the text before the first value, the only word with a value behind it is the one that was found.
  lemma HiddenBefore(k: Classes, t: string, m: Match, out: string, word: string, i: nat)
    requires Usual(k) && Marked(k, t, m, out) && word in CREDENTIAL_WORDS && i + |word| < m.from
    ensures Hidden(k, word, out, i)
  {
    var p := Credential(k);
    ReadsIsWordAt(k, word, out, i);
    if WordAt(k, word, out, i) {
      assert forall x :: 0 <= x < m.from ==> out[x] == out[..m.from][x] == t[..m.from][x] == t[x];
      assert out[i..i + |word|] == t[i..i + |word|];
      if i < m.start {
        NoWordBefore(p, t, m, i, word);
      } else {
        WordInWord(k, t, m, word, i);
      }
    }
  }

  // No word starts within the one that was found and ends before it.
  lemma WordInWord(k: Classes, t: string, m: Match, word: string, i: nat)
    requires Find(Credential(k), t, 0) == Some(m) && word in CREDENTIAL_WORDS
    requires m.start <= i && i + |word| < m.from
    ensures !WordAt(k, word, t, i)
  {
    var found := MatchedWord(Credential(k), t, m.start);
    WordEnds(Credential(k), word);
    var d := i + |word| - 1 - m.start;
    assert t[i + |word| - 1] == t[m.start..m.start + |found|][d];
    OnlyLastIsEqual(found, d);
    assert t[i..i + |word|][|word| - 1] == t[i + |word| - 1];
  }

  lemma OnlyLastIsEqual(word: string, d: nat)
    requires word in CREDENTIAL_WORDS && d < |word| - 1
    ensures word[d] != '='
  {
  }

  // No word fits into the text where it meets the marker, or lies within it.
  lemma WordAcross(k: Classes, out: string, from: nat, word: string, i: nat)
    requires Usual(k) && word in CREDENTIAL_WORDS && from + |MARKER| <= |out|
    requires out[from..from + |MARKER|] == MARKER
    requires i < from + |MARKER| && from < i + |word|
    ensures !WordAt(k, word, out, i)
  {
    WordEnds(Credential(k), word);
    MarkerFolds(k);
    assert '<' !in word && '>' !in word;
    if i + |word| <= |out| {
      if i <= from {
        assert out[i..i + |word|][from - i] == out[from..from + |MARKER|][0] == '<';
        assert word[from - i] in word;
      } else if i + |word| >= from + |MARKER| {
        var d := from + |MARKER| - 1 - i;
        assert out[i..i + |word|][d] == out[from..from + |MARKER|][|MARKER| - 1] == '>';
        assert word[d] in word;
      } else {
        var d := i + |word| - 1 - from;
        assert out[i..i + |word|][|word| - 1] == out[from..from + |MARKER|][d] == MARKER[d];
      }
    }
  }

  lemma HiddenInRest(k: Classes, out: string, start: nat, word: string, i: nat)
    requires start <= i && start <= |out| && Hidden(k, word, out[start..], i - start)
    ensures Hidden(k, word, out, i)
  {
    var rest := out[start..];
    assert forall x :: start <= x < |out| ==> out[x] == rest[x - start];
    if MarkedAt(k, rest, i - start + |word|) {
      var x := i + |word|;
      assert out[x..x + |MARKER|] == rest[x - start..x - start + |MARKER|];
    }
  }

  lemma HiddenAt(k: Classes, t: string, m: Match, out: string, word: string, i: nat)
    requires Usual(k) && Marked(k, t, m, out) && word in CREDENTIAL_WORDS
    requires AllHidden(k, out[m.from + |MARKER|..])
    ensures Hidden(k, word, out, i)
  {
    if i + |word| < m.from {
      HiddenBefore(k, t, m, out, word, i);
    } else if i + |word| == m.from {
      assert MarkedAt(k, out, m.from);
    } else if i < m.from + |MARKER| {
      WordAcross(k, out, m.from, word, i);
      ReadsIsWordAt(k, word, out, i);
    } else {
      var start := m.from + |MARKER|;
      assert Hidden(k, word, out[start..], i - start);
      HiddenInRest(k, out, start, word, i);
    }
  }

  lemma {:induction false} CredentialsAreHidden(k: Classes, t: string)
    requires Usual(k)
    ensures AllHidden(k, Substitute(Credential(k), t))
    decreases |t|
  {
    var found := Find(Credential(k), t, 0);
    var out := Substitute(Credential(k), t);
    if found.Some? {
      var m := found.value;
      var rest := Substitute(Credential(k), t[m.to..]);
      SubstitutedIsMarked(k, t, m, rest, out);
      CredentialsAreHidden(k, t[m.to..]);
      forall i: nat, word | word in CREDENTIAL_WORDS ensures Hidden(k, word, out, i) {
        HiddenAt(k, t, m, out, word, i);
      }
    } else {
      forall i: nat, word | word in CREDENTIAL_WORDS ensures Hidden(k, word, out, i) {
        NoMatchHidden(k, t, word, i);
      }
    }
  }

  /** Wherever the output reads "token=", "secret=" or "password=", in any case, with a value behind it,
      that value is the marker and nothing else. */
  lemma NoCredentialRemains(k: Classes, values: seq<string>, t: string, word: string, i: nat)
    requires Usual(k) && (word == "token=" || word == "secret=" || word == "password=")
    ensures var out := Redacted(k, values, t);
            Reads(k, word, out, i) && i + |word| < |out| && !k.space(out[i + |word|]) && out[i + |word|] != '&' ==>
              MarkedAt(k, out, i + |word|)
  {
    CredentialsAreHidden(k, Substitute(Link(k), ReplaceAll(values, t)));
    assert word in CREDENTIAL_WORDS;
    assert Hidden(k, word, Redacted(k, values, t), i);
  }

  /** The output reads "vless://" or "hysteria2://", in any case, only before white space or at its end. */
  lemma NoShareLinkRemains(k: Classes, values: seq<string>, t: string, word: string, i: nat)
    requires Usual(k) && (word == "vless://" || word == "hysteria2://")
    ensures var out := Redacted(k, values, t);
            Reads(k, word, out, i) && i + |word| < |out| ==> k.space(out[i + |word|])
  {
    var out := Redacted(k, values, t);
    NoLinkRemains(k, values, t);
    ReadsIsWordAt(k, word, out, i);
    assert word in LINK_WORDS;
    assert !LinkAt(k, out, i);
  }

  lemma NoWordNoMatch(p: Pattern, t: string, i: nat)
    requires !p.Literal? && forall w :: w in Words(p) ==> !Reads(p.classes, w, t, i)
    ensures MatchAt(p, t, i).None?
  {
    WordsMatch(p, Words(p), t, i);
    forall w | w in Words(p) ensures WordMatch(p, w, t, i).None? { ReadsIsWordAt(p.classes, w, t, i); }
  }

  /** A text with none of the values and none of the five words stays as it is. */
  lemma CleanTextStays(k: Classes, values: seq<string>, t: string)
    requires forall v :: v in values ==> v == "" || !Occurs(v, t)
    requires forall i: nat, w :: w in {"vless://", "hysteria2://", "token=", "secret=", "password="} ==>
               !Reads(k, w, t, i)
    ensures Redacted(k, values, t) == t
  {
    NothingLeft(values, t);
    forall i: nat ensures MatchAt(Link(k), t, i).None? && MatchAt(Credential(k), t, i).None? {
      NoWordNoMatch(Link(k), t, i);
      NoWordNoMatch(Credential(k), t, i);
    }
  }

  /** When every value is empty or separable, redacting again with the same values, in any order,
      changes nothing. */
  lemma RedactTwice(k: Classes, values: seq<string>, again: seq<string>, t: string)
    requires Usual(k)
    requires forall v :: v in values ==> v == "" || Separable(v)
    requires forall v :: v in again ==> v in values
    ensures Redacted(k, again, Redacted(k, values, t)) == Redacted(k, values, t)
  {
    var linked := ReplaceAll(values, t);
    var unlinked := Substitute(Link(k), linked);
    var out := Redacted(k, values, t);
    forall v | v in again ensures v == "" || !Occurs(v, out) {
      if v != "" { ValueIsGone(k, values, v, t); }
    }
    NothingLeft(again, out);
    LinksAreGone(k, linked);
    CredentialsMakeNoLink(k, unlinked);
    NoLinkNoChange(k, out);
    CredentialsTwice(k, unlinked);
  }
}
