/**
 * The plain-text body of an outgoing mail: `emailContent.replace(/<[^>]*>/g, "")`.
 * The global replace scans left to right; at each position it either removes a
 * match of `<[^>]*>` (a '<', then anything but '>', then the first '>') or keeps
 * one character and moves on.
 */
module TagStrip {
  import opened Wrappers

  /** The position of the first `c` in `s`. */
  function IndexOf(s: string, c: char): (i: nat)
    requires c in s
    ensures i < |s| && s[i] == c && c !in s[..i]
  {
    if s[0] == c then 0 else
      var j := IndexOf(s[1..], c);
      assert s[..j + 1] == [s[0]] + s[1..][..j];
      j + 1
  }

  /** The length of the match of `<[^>]*>` at the start of `s`, if there is one. */
  function TagAt(s: string): (r: Option<nat>)
    ensures r.Some? <==> (|s| > 0 && s[0] == '<' && '>' in s)
    ensures r.Some? ==> 2 <= r.value <= |s| && s[r.value - 1] == '>' && '>' !in s[..r.value - 1]
  {
    if |s| > 0 && s[0] == '<' && '>' in s then Some(IndexOf(s, '>') + 1) else None
  }

  /** The global replace of `<[^>]*>` by "". */
  function StripTags(s: string): (r: string)
    ensures |r| <= |s|
    decreases |s|
  {
    if s == [] then []
    else match TagAt(s)
      case Some(n) => StripTags(s[n..])
      case None => [s[0]] + StripTags(s[1..])
  }

  /** `s` holds a '<' with a '>' somewhere after it, so the pattern matches in `s`. */
  predicate HasTag(s: string) {
    exists i, j :: 0 <= i < j < |s| && s[i] == '<' && s[j] == '>'
  }

  /** Every character of the result occurs in the input. */
  lemma {:induction false} StripTagsKeepsCharacters(s: string, c: char)
    requires c in StripTags(s)
    ensures c in s
    decreases |s|
  {
    match TagAt(s)
    case Some(n) =>
      StripTagsKeepsCharacters(s[n..], c);
    case None =>
      if c != s[0] {
        StripTagsKeepsCharacters(s[1..], c);
      }
  }

  /**
   * `r` is `s` with some characters deleted: the characters of `r` appear in `s`
   * in the same order, each one used once.
   */
  predicate Subsequence(r: string, s: string)
    decreases |s|
  {
    && |r| <= |s|
    && (|| r == []
        || (r[0] == s[0] && Subsequence(r[1..], s[1..]))
        || Subsequence(r, s[1..]))
  }

  /** Deleting a prefix of `s` keeps `r` a subsequence of `s`. */
  lemma {:induction false} SubsequenceDropPrefix(r: string, s: string, n: nat)
    requires n <= |s| && Subsequence(r, s[n..])
    ensures Subsequence(r, s)
    decreases n
  {
    if n > 0 {
      assert s[1..][n - 1..] == s[n..];
      SubsequenceDropPrefix(r, s[1..], n - 1);
    }
  }

  /** Stripping only deletes characters: the result is a subsequence of the input. */
  lemma {:induction false} StripTagsDeletes(s: string)
    ensures Subsequence(StripTags(s), s)
    decreases |s|
  {
    if s != [] {
      match TagAt(s)
      case Some(n) =>
        StripTagsDeletes(s[n..]);
        SubsequenceDropPrefix(StripTags(s[n..]), s, n);
      case None =>
        StripTagsDeletes(s[1..]);
        var r := [s[0]] + StripTags(s[1..]);
        assert r[1..] == StripTags(s[1..]);
    }
  }

  /** After stripping, no '<' is followed by a '>' anywhere later. */
  lemma {:induction false} StripTagsLeavesNoTag(s: string)
    ensures !HasTag(StripTags(s))
    decreases |s|
  {
    if s != [] {
      match TagAt(s)
      case Some(n) =>
        StripTagsLeavesNoTag(s[n..]);
      case None =>
        var rest := StripTags(s[1..]);
        StripTagsLeavesNoTag(s[1..]);
        if s[0] == '<' && '>' in rest {
          StripTagsKeepsCharacters(s[1..], '>');
        }
        NoTagCons(s[0], rest);
    }
  }

  /** A character put in front of tag-free text makes no tag, unless it is a '<' and a '>' follows. */
  lemma NoTagCons(c: char, rest: string)
    requires !HasTag(rest) && (c == '<' ==> '>' !in rest)
    ensures !HasTag([c] + rest)
  {
    var r := [c] + rest;
    forall i, j | 0 <= i < j < |r| && r[i] == '<'
      ensures r[j] != '>'
    {
      assert r[j] == rest[j - 1];
      if i > 0 {
        assert rest[i - 1] == '<';
      }
    }
  }

  /** A string in which the pattern does not match is left unchanged. */
  lemma {:induction false} StripTagsKeepsTagless(s: string)
    requires !HasTag(s)
    ensures StripTags(s) == s
    decreases |s|
  {
    if s != [] {
      assert TagAt(s).None?;
      assert !HasTag(s[1..]);
      StripTagsKeepsTagless(s[1..]);
    }
  }

  /** A string in which the pattern matches always gets shorter. */
  lemma {:induction false} StripTagsShortensTagged(s: string)
    requires HasTag(s)
    ensures |StripTags(s)| < |s|
    decreases |s|
  {
    var i, j :| 0 <= i < j < |s| && s[i] == '<' && s[j] == '>';
    match TagAt(s)
    case Some(n) =>
    case None =>
      assert i > 0;
      assert s[1..][i - 1] == '<' && s[1..][j - 1] == '>';
      StripTagsShortensTagged(s[1..]);
  }

  /** Stripping leaves a string unchanged exactly when it holds no '<' followed later by '>'. */
  lemma StripTagsUnchangedIff(s: string)
    ensures StripTags(s) == s <==> !HasTag(s)
  {
    if HasTag(s) {
      StripTagsShortensTagged(s);
    } else {
      StripTagsKeepsTagless(s);
    }
  }

  /** Stripping twice is stripping once. */
  lemma StripTagsIdempotent(s: string)
    ensures StripTags(StripTags(s)) == StripTags(s)
  {
    StripTagsLeavesNoTag(s);
    StripTagsKeepsTagless(StripTags(s));
  }

  /** Text without any '<' passes through unchanged. */
  lemma StripTagsWithoutOpen(s: string)
    requires '<' !in s
    ensures StripTags(s) == s
  {
    StripTagsKeepsTagless(s);
  }

  /** Text without any '>' passes through unchanged, so a '<' that is never closed survives. */
  lemma StripTagsWithoutClose(s: string)
    requires '>' !in s
    ensures StripTags(s) == s
  {
    StripTagsKeepsTagless(s);
  }

  /** The first '>' of `a + t` is the first '>' of `a`, when `a` has one. */
  lemma {:induction false} IndexOfAppend(a: string, t: string, c: char)
    requires c in a
    ensures IndexOf(a + t, c) == IndexOf(a, c)
    decreases |a|
  {
    if a[0] != c {
      assert c in a[1..];
      assert (a + t)[1..] == a[1..] + t;
      IndexOfAppend(a[1..], t, c);
    }
  }

  /** Text that holds no '>' is appended untouched: no tag of `a` can close inside it. */
  lemma {:induction false} StripTagsAppendUnclosed(a: string, t: string)
    requires '>' !in t
    ensures StripTags(a + t) == StripTags(a) + t
    decreases |a|
  {
    var s := a + t;
    if a == [] {
      assert s == t;
      StripTagsWithoutClose(t);
    } else {
      assert s[0] == a[0];
      match TagAt(a)
      case Some(n) =>
        IndexOfAppend(a, t, '>');
        assert TagAt(s) == Some(n);
        assert s[n..] == a[n..] + t;
        StripTagsAppendUnclosed(a[n..], t);
      case None =>
        assert '>' in s ==> '>' in a by {
          if '>' in s {
            var k := IndexOf(s, '>');
            assert k < |a|;
            assert s[k] == a[k];
          }
        }
        assert TagAt(s).None?;
        assert s[1..] == a[1..] + t;
        StripTagsAppendUnclosed(a[1..], t);
    }
  }

  /** A '<' with no '>' after it is kept, together with everything after it. */
  lemma StripTagsKeepsUnclosed(a: string, b: string)
    requires '>' !in b
    ensures StripTags(a + ['<'] + b) == StripTags(a) + ['<'] + b
  {
    assert a + ['<'] + b == a + (['<'] + b);
    StripTagsAppendUnclosed(a, ['<'] + b);
  }

  /**
   * A tag `<m>` is removed whole: the text before it (which opens no tag) is kept,
   * and stripping goes on after the tag's first '>'.
   */
  lemma StripTagsRemovesTag(a: string, m: string, b: string)
    requires '<' !in a && '>' !in m
    ensures StripTags(a + ['<'] + m + ['>'] + b) == a + StripTags(b)
  {
    var tag := ['<'] + m + ['>'] + b;
    assert a + ['<'] + m + ['>'] + b == a + tag;
    StripTagsKeepsPlainPrefix(a, tag);
    StripTagsLeadingTag(m, b);
  }

  /** Text without '<' opens no tag, so it is kept and stripping goes on after it. */
  lemma {:induction false} StripTagsKeepsPlainPrefix(a: string, x: string)
    requires '<' !in a
    ensures StripTags(a + x) == a + StripTags(x)
    decreases |a|
  {
    if a == [] {
      assert a + x == x;
    } else {
      assert a + x == [a[0]] + (a[1..] + x);
      StripTagsKeepsPlain(a[0], a[1..] + x);
      StripTagsKeepsPlainPrefix(a[1..], x);
      assert [a[0]] + (a[1..] + StripTags(x)) == a + StripTags(x);
    }
  }

  /** A first character other than '<' is kept, and stripping goes on after it. */
  lemma StripTagsKeepsPlain(c: char, t: string)
    requires c != '<'
    ensures StripTags([c] + t) == [c] + StripTags(t)
  {
    assert ([c] + t)[1..] == t;
  }

  /** A tag at the very start is matched up to its first '>' and removed. */
  lemma StripTagsLeadingTag(m: string, b: string)
    requires '>' !in m
    ensures StripTags(['<'] + m + ['>'] + b) == StripTags(b)
  {
    var s := ['<'] + m + ['>'] + b;
    assert s[|m| + 1] == '>' && s[..|m| + 1] == ['<'] + m;
    assert IndexOf(s, '>') == |m| + 1;
    assert s[|m| + 2..] == b;
  }

  /** An element `<t>w</t>` of an HTML body. */
  function Element(t: string, w: string): string {
    ['<'] + t + ['>'] + w + ['<', '/'] + t + ['>']
  }

  /**
   * An element whose tag name holds no '>' and whose text holds no '<' is replaced
   * by its text, and stripping goes on after it.
   */
  lemma StripTagsElement(t: string, w: string, rest: string)
    requires '>' !in t && '<' !in w
    ensures StripTags(Element(t, w) + rest) == w + StripTags(rest)
  {
    var close := ['/'] + t;
    assert Element(t, w) + rest == [] + ['<'] + t + ['>'] + (w + ['<'] + close + ['>'] + rest);
    StripTagsRemovesTag([], t, w + ['<'] + close + ['>'] + rest);
    StripTagsRemovesTag(w, close, rest);
  }

  /**
   * The example of the documentation, for every tag name and text of that shape:
   * "<h1>Hi</h1><p>there</p>" becomes "Hithere".
   */
  lemma StripTagsExample(t1: string, w1: string, t2: string, w2: string)
    requires '>' !in t1 && '<' !in w1 && '>' !in t2 && '<' !in w2
    ensures StripTags(Element(t1, w1) + Element(t2, w2)) == w1 + w2
  {
    StripTagsElement(t1, w1, Element(t2, w2));
    StripTagsElement(t2, w2, []);
    assert Element(t2, w2) + [] == Element(t2, w2);
  }
}
