/** grep.c's matcher for ^ . * $ against what the pattern means: a way to cut the text so that
    each part of the pattern fits its piece. Texts and patterns are C strings without their NUL. */
module GrepMatch {

  /** A pattern after its ^: single characters, starred characters, and a final $. */
  datatype Atom = One(c: char) | Star(c: char) | End

  function Parse(re: string): (atoms: seq<Atom>)
    decreases |re|
  {
    if re == [] then []
    else if |re| > 1 && re[1] == '*' then [Star(re[0])] + Parse(re[2..])
    else if re == ['$'] then [End]
    else [One(re[0])] + Parse(re[1..])
  }

  predicate Same(c: char, x: char) { c == '.' || c == x }

  /** Atom `a` fits the piece of `t` from `i` to `j`. */
  predicate Fits(a: Atom, t: string, i: nat, j: nat)
    requires i <= j <= |t|
  {
    match a
    case One(c) => j == i + 1 && Same(c, t[i])
    case Star(c) => forall x :: i <= x < j ==> Same(c, t[x])
    case End => i == j == |t|
  }

  /** The places `cuts` cut the text from `p` on into one fitting piece per atom. */
  ghost predicate Cut(atoms: seq<Atom>, t: string, p: nat, cuts: seq<nat>) {
    && |cuts| == |atoms| + 1 && cuts[0] == p && p <= |t|
    && (forall k :: 0 <= k < |atoms| ==> Piece(atoms, t, cuts, k))
  }

  ghost predicate Piece(atoms: seq<Atom>, t: string, cuts: seq<nat>, k: nat)
    requires |cuts| == |atoms| + 1 && k < |atoms|
  {
    cuts[k] <= cuts[k + 1] <= |t| && Fits(atoms[k], t, cuts[k], cuts[k + 1])
  }

  /** The atoms match at position `p`. */
  ghost predicate MatchesAt(atoms: seq<Atom>, t: string, p: nat) {
    exists cuts :: Cut(atoms, t, p, cuts)
  }

  /** The meaning of a pattern: anchored at the start by ^, anywhere in the text otherwise. */
  ghost predicate Matches(re: string, t: string) {
    if re != [] && re[0] == '^' then MatchesAt(Parse(re[1..]), t, 0)
    else exists p: nat :: p <= |t| && MatchesAt(Parse(re), t, p)
  }

  // ---- the meaning, one atom at a time ----------------------------------------------------------------

  lemma NoAtoms(t: string, p: nat)
    requires p <= |t|
    ensures MatchesAt([], t, p)
  {
    assert Cut([], t, p, [p]);
  }

  /** Put a fitting piece in front. */
  lemma Prepend(a: Atom, atoms: seq<Atom>, t: string, p: nat, q: nat)
    requires p <= q <= |t| && Fits(a, t, p, q) && MatchesAt(atoms, t, q)
    ensures MatchesAt([a] + atoms, t, p)
  {
    var cuts :| Cut(atoms, t, q, cuts);
    var all, c := [a] + atoms, [p] + cuts;
    forall k | 0 <= k < |all| ensures Piece(all, t, c, k) {
      if k > 0 { assert Piece(atoms, t, cuts, k - 1); }
    }
    assert Cut(all, t, p, c);
  }

  /** Take the first piece off. */
  lemma Behead(a: Atom, atoms: seq<Atom>, t: string, p: nat) returns (q: nat)
    requires MatchesAt([a] + atoms, t, p)
    ensures p <= q <= |t| && Fits(a, t, p, q) && MatchesAt(atoms, t, q)
  {
    var all := [a] + atoms;
    var cuts :| Cut(all, t, p, cuts);
    assert Piece(all, t, cuts, 0);
    q := cuts[1];
    forall k | 0 <= k < |atoms| ensures Piece(atoms, t, cuts[1..], k) {
      assert Piece(all, t, cuts, k + 1);
    }
    assert Cut(atoms, t, q, cuts[1..]);
  }

  lemma OneAtom(c: char, atoms: seq<Atom>, t: string, p: nat)
    requires p <= |t|
    ensures MatchesAt([One(c)] + atoms, t, p) <==> p < |t| && Same(c, t[p]) && MatchesAt(atoms, t, p + 1)
  {
    if MatchesAt([One(c)] + atoms, t, p) { var q := Behead(One(c), atoms, t, p); }
    if p < |t| && Same(c, t[p]) && MatchesAt(atoms, t, p + 1) { Prepend(One(c), atoms, t, p, p + 1); }
  }

  lemma EndAtom(t: string, p: nat)
    requires p <= |t|
    ensures MatchesAt([End], t, p) <==> p == |t|
  {
    assert [End] == [End] + [];
    if MatchesAt([End], t, p) { var q := Behead(End, [], t, p); }
    if p == |t| {
      NoAtoms(t, p);
      Prepend(End, [], t, p, p);
    }
  }

  /** A star matches some number of characters, each of which it allows. */
  lemma StarAtom(c: char, atoms: seq<Atom>, t: string, p: nat)
    requires p <= |t|
    ensures MatchesAt([Star(c)] + atoms, t, p) <==>
              exists q: nat :: p <= q <= |t| && (forall x :: p <= x < q ==> Same(c, t[x])) && MatchesAt(atoms, t, q)
  {
    if MatchesAt([Star(c)] + atoms, t, p) { var q := Behead(Star(c), atoms, t, p); }
    if q: nat :| p <= q <= |t| && (forall x :: p <= x < q ==> Same(c, t[x])) && MatchesAt(atoms, t, q) {
      Prepend(Star(c), atoms, t, p, q);
    }
  }

  // ---- the matcher --------------------------------------------------------------------------------------

  /** matchhere: does `re` match the text at `p`? */
  method MatchHere(re: string, t: string, p: nat) returns (b: bool)
    requires p <= |t|
    ensures b <==> MatchesAt(Parse(re), t, p)
    decreases |re|, 0
  {
    if re == [] {
      NoAtoms(t, p);
      return true;
    }
    if |re| > 1 && re[1] == '*' {
      b := MatchStar(re[0], re[2..], t, p);
      return;
    }
    if re[0] == '$' && |re| == 1 {
      EndAtom(t, p);
      return p == |t|;
    }
    OneAtom(re[0], Parse(re[1..]), t, p);
    if p < |t| && (re[0] == '.' || re[0] == t[p]) {
      b := MatchHere(re[1..], t, p + 1);
      return;
    }
    return false;
  }

  /** matchstar: does c* followed by `re` match the text at `p`? */
  method MatchStar(c: char, re: string, t: string, p: nat) returns (b: bool)
    requires p <= |t|
    ensures b <==> MatchesAt([Star(c)] + Parse(re), t, p)
    decreases |re|, 1
  {
    StarAtom(c, Parse(re), t, p);
    var q := p;
    while true
      invariant p <= q <= |t| && forall x :: p <= x < q ==> Same(c, t[x])
      invariant forall x :: p <= x < q ==> !MatchesAt(Parse(re), t, x)
      decreases |t| - q
    {
      b := MatchHere(re, t, q);
      if b { return true; }
      if !(q < |t| && (t[q] == c || c == '.')) { return false; }
      q := q + 1;
    }
    assert false;
  }

  /** match: is there a match in `t`? */
  method Match(re: string, t: string) returns (b: bool)
    ensures b <==> Matches(re, t)
  {
    if re != [] && re[0] == '^' {
      b := MatchHere(re[1..], t, 0);
      return;
    }
    var p := 0;
    while true
      invariant 0 <= p <= |t| && forall x: nat :: x < p ==> !MatchesAt(Parse(re), t, x)
      decreases |t| - p
    {
      b := MatchHere(re, t, p);
      if b { return true; }
      if p == |t| { return false; }
      p := p + 1;
    }
    assert false;
  }
}
