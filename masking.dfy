/**
 * The masked sender shown by the configuration test:
 * `user.replace(/(.{2}).*(@.*)/, "$1***$2")`. The replace is not global, so only
 * the leftmost match is rewritten; `.` matches anything but a line terminator.
 */
module Masking {
  import opened Wrappers
  import opened Js

  /** Where a run of `.` that starts at `i` must stop: the next line terminator, or the end. */
  function LineEnd(s: string, i: nat): (e: nat)
    requires i <= |s|
    ensures i <= e <= |s|
    ensures e == |s| || IsLineTerminator(s[e])
    ensures forall k :: i <= k < e ==> !IsLineTerminator(s[k])
    decreases |s| - i
  {
    if i == |s| || IsLineTerminator(s[i]) then i else LineEnd(s, i + 1)
  }

  /** The last '@' in `s[lo..hi]`: where a greedy `.*` followed by '@' backs off to. */
  function LastAt(s: string, lo: nat, hi: nat): (r: Option<nat>)
    requires lo <= hi <= |s|
    ensures r.Some? ==> lo <= r.value < hi && s[r.value] == '@'
    ensures r.Some? ==> forall k :: r.value < k < hi ==> s[k] != '@'
    ensures r.None? ==> forall k :: lo <= k < hi ==> s[k] != '@'
    decreases hi - lo
  {
    if lo == hi then None
    else if s[hi - 1] == '@' then Some(hi - 1)
    else LastAt(s, lo, hi - 1)
  }

  /**
   * Whether `(.{2}).*(@.*)` matches at position `p`, and if so where its second
   * group (the '@') starts: two characters, then the greedy `.*` stops at the last
   * '@' that lies on the same line.
   */
  function MatchAt(s: string, p: nat): (r: Option<nat>)
    requires p <= |s|
    ensures r.Some? <==> exists q :: p + 2 <= q < LineEnd(s, p) && s[q] == '@'
    ensures r.Some? ==> p + 2 <= r.value < LineEnd(s, p) && s[r.value] == '@'
    ensures r.Some? ==> forall k :: r.value < k < LineEnd(s, p) ==> s[k] != '@'
  {
    var e := LineEnd(s, p);
    if e < p + 2 then None else LastAt(s, p + 2, e)
  }

  /** The leftmost match at or after `p`: its start and the start of its second group. */
  function FirstMatch(s: string, p: nat): (r: Option<(nat, nat)>)
    requires p <= |s|
    ensures r.Some? ==> p <= r.value.0 <= |s| && MatchAt(s, r.value.0) == Some(r.value.1)
    ensures r.Some? ==> forall k :: p <= k < r.value.0 ==> MatchAt(s, k).None?
    ensures r.None? ==> forall k :: p <= k <= |s| ==> MatchAt(s, k).None?
    decreases |s| - p
  {
    match MatchAt(s, p)
    case Some(q) => Some((p, q))
    case None => if p == |s| then None else FirstMatch(s, p + 1)
  }

  /**
   * The replacement `$1***$2` of the leftmost match; no match leaves `s` as it is.
   * A match keeps everything up to the end of group 1, puts "***" in place of the
   * `.*`, and keeps everything from the '@' of group 2 on.
   */
  function MaskUser(s: string): (r: string)
    ensures FirstMatch(s, 0).None? ==> r == s
    ensures FirstMatch(s, 0).Some? ==>
      var (p, q) := FirstMatch(s, 0).value;
      r == s[..p + 2] + "***" + s[q..]
  {
    match FirstMatch(s, 0)
    case None => s
    case Some((p, q)) => Replace(s, p, q, LineEnd(s, q))
  }

  /**
   * `s` with the match `s[p..e]` replaced by `$1***$2`, where group 1 is the two
   * characters at `p` and group 2 runs from the '@' at `q` to `e`: the text before
   * the match and after it stays, so only the run `s[p + 2..q]` becomes "***".
   */
  function Replace(s: string, p: nat, q: nat, e: nat): (r: string)
    requires p + 2 <= q <= e <= |s|
    ensures r == s[..p + 2] + "***" + s[q..]
  {
    var group1, group2 := s[p..p + 2], s[q..e];
    assert s[..p] + group1 == s[..p + 2];
    assert group2 + s[e..] == s[q..];
    s[..p] + (group1 + "***" + group2) + s[e..]
  }

  /** `s` holds no '@' at index `i` or later. */
  predicate NoAtFrom(s: string, i: nat) {
    forall k :: i <= k < |s| ==> s[k] != '@'
  }

  /** `q` is the position of the last '@' of `s`. */
  predicate IsLastAt(s: string, q: nat) {
    q < |s| && s[q] == '@' && NoAtFrom(s, q + 1)
  }

  /** The string holds no line terminator, so `.` matches each of its characters. */
  predicate SingleLine(s: string) {
    forall k :: 0 <= k < |s| ==> !IsLineTerminator(s[k])
  }

  /**
   * A single-line user with an '@' at index 2 or later keeps its first two
   * characters and everything from its LAST '@' on; the rest becomes "***".
   */
  lemma MaskKeepsPrefixAndDomain(s: string, q: nat)
    requires SingleLine(s)
    requires 2 <= q && IsLastAt(s, q)
    ensures MaskUser(s) == s[..2] + "***" + s[q..]
  {
    assert LineEnd(s, 0) == |s|;
    var r := MatchAt(s, 0);
    assert r == Some(q) by {
      assert r.Some?;
      assert !(r.value < q) && !(q < r.value);
    }
  }

  /** A single-line user with no '@' at index 2 or later is shown unchanged. */
  lemma MaskWithoutLateAt(s: string)
    requires SingleLine(s)
    requires NoAtFrom(s, 2)
    ensures MaskUser(s) == s
  {
    forall p | 0 <= p <= |s|
      ensures MatchAt(s, p).None?
    {
      assert LineEnd(s, p) == |s|;
    }
  }

  /**
   * The masking table for a single-line user: with its last '@' at index 2 or
   * later it keeps two characters, "***" and the suffix from that '@'; with no '@'
   * at index 2 or later it is unchanged.
   */
  lemma MaskTable(s: string)
    ensures SingleLine(s) ==> forall q: nat :: 2 <= q && IsLastAt(s, q) ==> MaskUser(s) == s[..2] + "***" + s[q..]
    ensures SingleLine(s) && NoAtFrom(s, 2) ==> MaskUser(s) == s
  {
    if SingleLine(s) {
      forall q: nat | 2 <= q && IsLastAt(s, q)
        ensures MaskUser(s) == s[..2] + "***" + s[q..]
      {
        MaskKeepsPrefixAndDomain(s, q);
      }
      if NoAtFrom(s, 2) {
        MaskWithoutLateAt(s);
      }
    }
  }

  /** The characters between the first two and the last '@' never reach the output. */
  lemma MaskHidesLocalPart(s: string, s': string, q: nat, q': nat)
    requires SingleLine(s) && SingleLine(s')
    requires 2 <= q && IsLastAt(s, q) && 2 <= q' && IsLastAt(s', q')
    requires s[..2] == s'[..2] && s[q..] == s'[q'..]
    ensures MaskUser(s) == MaskUser(s')
  {
    MaskKeepsPrefixAndDomain(s, q);
    MaskKeepsPrefixAndDomain(s', q');
  }

  /** An '@' at index 1 is too early for `(.{2})`: "a@b.com" is shown unchanged. */
  lemma MaskShortLocalPartExample()
    ensures MaskUser("a@b.com") == "a@b.com"
  {
    MaskWithoutLateAt("a@b.com");
  }

  /** "anna@ex.com" is shown as "an***@ex.com". */
  lemma MaskExample()
    ensures MaskUser("anna@ex.com") == "an***@ex.com"
  {
    assert IsLastAt("anna@ex.com", 4);
    MaskKeepsPrefixAndDomain("anna@ex.com", 4);
    ExampleSplice();
  }

  lemma ExampleSplice()
    ensures "anna@ex.com"[..2] + "***" + "anna@ex.com"[4..] == "an***@ex.com"
  {
  }
}
