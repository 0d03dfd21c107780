/** Optional values, as Java's nullable references and "not found" results. */
module Wrappers {
  datatype Option<+T> = None | Some(value: T)
}

/**
 * The java.lang.String operations the console relies on, over seq<char>:
 * startsWith, indexOf and split on a literal '|'.
 */
module JavaString {

  /** s.startsWith(prefix) */
  predicate StartsWith(s: string, prefix: string) {
    |prefix| <= |s| && s[..|prefix|] == prefix
  }

  /** pat occurs in s at index k */
  predicate OccursAt(s: string, pat: string, k: int) {
    0 <= k && k + |pat| <= |s| && s[k..k + |pat|] == pat
  }

  /**
   * s.indexOf(pat, from) for a non-empty pattern: the least index at or after
   * from where pat occurs, or -1 when there is none.
   */
  function IndexOf(s: string, pat: string, from: nat): (r: int)
    requires |pat| > 0
    ensures r == -1 || (from <= r && OccursAt(s, pat, r))
    ensures r == -1 ==> forall k :: from <= k ==> !OccursAt(s, pat, k)
    ensures forall k :: from <= k < r ==> !OccursAt(s, pat, k)
    decreases |s| - from
  {
    if from + |pat| > |s| then -1
    else if s[from..from + |pat|] == pat then from
    else IndexOf(s, pat, from + 1)
  }

  /** Index of the first '|' of a string that has one. */
  function FirstPipe(s: string): (i: nat)
    requires '|' in s
    ensures i < |s| && s[i] == '|' && '|' !in s[..i]
  {
    if s[0] == '|' then 0
    else
      var i := FirstPipe(s[1..]);
      assert s[1..][..i] == s[1..i + 1];
      assert s[..i + 1] == [s[0]] + s[1..][..i];
      i + 1
  }

  /** Every '|'-separated piece of s, empty ones included: "a||b|" gives ["a", "", "b", ""]. */
  function Pieces(s: string): (r: seq<string>)
    ensures |r| >= 1
    ensures forall p :: p in r ==> '|' !in p
    decreases |s|
  {
    if '|' !in s then [s]
    else
      var i := FirstPipe(s);
      [s[..i]] + Pieces(s[i + 1..])
  }

  /** Removes the empty strings at the end of ps. */
  function DropTrailingEmpty(ps: seq<string>): (r: seq<string>)
    ensures r <= ps
    ensures r == [] || r[|r| - 1] != ""
    ensures forall k :: |r| <= k < |ps| ==> ps[k] == ""
  {
    if ps == [] || ps[|ps| - 1] != "" then ps
    else DropTrailingEmpty(ps[..|ps| - 1])
  }

  /**
   * s.split("\\|"): a string without '|' is its own only piece (so "" gives
   * [""]); otherwise every piece, with the trailing empty ones removed (so "|"
   * gives []).
   */
  function Split(s: string): (r: seq<string>)
    ensures forall p :: p in r ==> '|' !in p
    ensures '|' !in s ==> r == [s]
  {
    if '|' !in s then [s] else DropTrailingEmpty(Pieces(s))
  }

  /** The pieces written back with '|' between them. */
  function Join(ps: seq<string>): string
    requires |ps| >= 1
  {
    if |ps| == 1 then ps[0] else ps[0] + "|" + Join(ps[1..])
  }

  lemma {:induction false} JoinSnoc(ps: seq<string>, x: string)
    requires |ps| >= 1
    ensures Join(ps + [x]) == Join(ps) + "|" + x
  {
    if |ps| > 1 {
      assert (ps + [x])[1..] == ps[1..] + [x];
      JoinSnoc(ps[1..], x);
    }
  }

  /** Splitting pieces that hold no '|' undoes joining them. */
  lemma {:induction false} PiecesJoin(ps: seq<string>)
    requires |ps| >= 1
    requires forall p :: p in ps ==> '|' !in p
    ensures Pieces(Join(ps)) == ps
  {
    if |ps| > 1 {
      assert ps[0] in ps;
      var s := Join(ps);
      var rest := Join(ps[1..]);
      assert s == ps[0] + "|" + rest;
      assert s[|ps[0]|] == '|';
      assert '|' in s;
      var i := FirstPipe(s);
      assert s[..|ps[0]|] == ps[0];
      assert i == |ps[0]|;
      assert s[i + 1..] == rest;
      PiecesJoin(ps[1..]);
    }
  }

  /**
   * split("\\|") returns exactly the joined pieces when none holds a '|' and
   * the last is not empty (so there is no trailing empty piece to drop).
   */
  lemma SplitJoin(ps: seq<string>)
    requires |ps| >= 1
    requires forall p :: p in ps ==> '|' !in p
    requires ps[|ps| - 1] != ""
    ensures Split(Join(ps)) == ps
  {
    PiecesJoin(ps);
    if '|' !in Join(ps) {
      assert Pieces(Join(ps)) == [Join(ps)];
    }
  }
}
