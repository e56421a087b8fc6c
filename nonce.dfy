/**
 * The one regular expression of the driver, `"GetNonce" size=31 value=(\w+)>`,
 * searched for in the radio settings page, written out by hand.
 *
 * A match at position `p` is the literal `Prefix` at `p`, followed by one or
 * more word characters, followed by `>`. Since `>` is not a word character,
 * the greedy `\w+` can only succeed with the maximal run of word characters
 * after the literal, so backtracking never finds a shorter token. The search
 * returns the group of the leftmost match.
 *
 * `\w` is taken as the ASCII word characters (letters, digits and `_`); for
 * `str` patterns Python 3 also counts every Unicode letter and digit.
 */
module Nonce {
  import opened Wrappers

  /** The literal part of the pattern before the group. */
  const Prefix: string := "\"GetNonce\" size=31 value="

  predicate IsWordChar(c: char)
  {
    ('a' <= c <= 'z') || ('A' <= c <= 'Z') || ('0' <= c <= '9') || c == '_'
  }

  /** What `\w+` matches in full: a non-empty run of word characters. */
  predicate IsWord(t: string)
  {
    |t| > 0 && forall i :: 0 <= i < |t| ==> IsWordChar(t[i])
  }

  /** The end of the maximal run of word characters that starts at `i`. */
  function RunEnd(s: string, i: nat): (j: nat)
    requires i <= |s|
    ensures i <= j <= |s|
    ensures forall k :: i <= k < j ==> IsWordChar(s[k])
    ensures j == |s| || !IsWordChar(s[j])
    decreases |s| - i
  {
    if i < |s| && IsWordChar(s[i]) then RunEnd(s, i + 1) else i
  }

  /** The literal `lit`, a non-empty word run and `>` match `s` at `p`. */
  predicate LiteralMatch(lit: string, s: string, p: nat)
  {
    && p + |lit| <= |s|
    && s[p..p + |lit|] == lit
    && var j := RunEnd(s, p + |lit|);
       p + |lit| < j < |s| && s[j] == '>'
  }

  /** The word run after the literal of a match. */
  function Group(lit: string, s: string, p: nat): string
    requires LiteralMatch(lit, s, p)
  {
    s[p + |lit|..RunEnd(s, p + |lit|)]
  }

  /** The whole pattern matches `s` starting at position `p`. */
  predicate MatchAt(s: string, p: nat)
  {
    LiteralMatch(Prefix, s, p)
  }

  /** The text of group 1 of a match at `p`. */
  function TokenAt(s: string, p: nat): string
    requires MatchAt(s, p)
  {
    Group(Prefix, s, p)
  }

  /** The position of the leftmost match at or after `p`, as `re.search` scans from left to right. */
  function FindMatch(s: string, p: nat): (r: Option<nat>)
    requires p <= |s|
    ensures r.None? ==> forall q :: p <= q <= |s| ==> !MatchAt(s, q)
    ensures r.Some? ==> p <= r.value <= |s| && MatchAt(s, r.value)
    ensures r.Some? ==> forall q :: p <= q < r.value ==> !MatchAt(s, q)
    decreases |s| - p
  {
    if MatchAt(s, p) then Some(p)
    else if p == |s| then None
    else FindMatch(s, p + 1)
  }

  /**
   * `re.search(pattern, page).group(1)`: the token of the leftmost match, or
   * `None` where the search finds nothing (and `.group` would raise). The
   * token is found exactly when the pattern matches somewhere; it is then a
   * non-empty run of word characters, the group of the leftmost match.
   */
  function ExtractNonce(page: string): (r: Option<string>)
    ensures r.None? <==> forall p :: 0 <= p <= |page| ==> !MatchAt(page, p)
    ensures r.Some? ==>
      var p := FindMatch(page, 0).value;
      && MatchAt(page, p)
      && (forall q :: 0 <= q < p ==> !MatchAt(page, q))
      && r.value == TokenAt(page, p)
      && IsWord(r.value)
  {
    match FindMatch(page, 0)
    case Some(p) => GroupSpells(Prefix, page, p); Some(TokenAt(page, p))
    case None => None
  }

  /** A run of word characters up to a non-word character ends there. */
  lemma {:induction false} RunEndAt(s: string, i: nat, j: nat)
    requires i <= j <= |s|
    requires forall k :: i <= k < j ==> IsWordChar(s[k])
    requires j == |s| || !IsWordChar(s[j])
    ensures RunEnd(s, i) == j
    decreases j - i
  {
    if i < j {
      RunEndAt(s, i + 1, j);
    }
  }

  /** At a match, the text reads the literal, then the group, a word, then `>`. */
  lemma GroupSpells(lit: string, s: string, p: nat)
    requires LiteralMatch(lit, s, p)
    ensures var t := Group(lit, s, p);
      IsWord(t) && p + |lit| + |t| < |s| && s[p..p + |lit| + |t| + 1] == lit + t + ">"
  {
    var a := p + |lit|;
    var j := RunEnd(s, a);
    var t := Group(lit, s, p);
    assert |t| == j - a;
    assert forall k :: 0 <= k < |t| ==> t[k] == s[a + k];
    assert s[p..j + 1] == s[p..a] + s[a..j] + [s[j]];
  }

  /** Text that reads the literal, then a word, then `>` is a match with that word as group. */
  lemma SpelledGroup(lit: string, s: string, p: nat, t: string)
    requires IsWord(t) && p + |lit| + |t| < |s|
    requires s[p..p + |lit| + |t| + 1] == lit + t + ">"
    ensures LiteralMatch(lit, s, p) && Group(lit, s, p) == t
  {
    var a := p + |lit|;
    var w := s[p..a + |t| + 1];
    assert w == lit + t + ">";
    assert s[p..a] == w[..|lit|] == lit;
    forall k | a <= k < a + |t|
      ensures IsWordChar(s[k])
    {
      assert s[k] == w[k - p];
      assert w[k - p] == (lit + t + ">")[k - p] == t[k - a];
    }
    assert s[a + |t|] == w[|lit| + |t|] == '>';
    RunEndAt(s, a, a + |t|);
    assert s[a..a + |t|] == t by {
      forall k | 0 <= k < |t|
        ensures s[a..a + |t|][k] == t[k]
      {
        assert s[a + k] == w[|lit| + k] == (lit + t + ">")[|lit| + k] == t[k];
      }
    }
  }

  /** At a match, the text reads `Prefix`, then the token, then `>`. */
  lemma MatchSpells(s: string, p: nat)
    requires MatchAt(s, p)
    ensures var t := TokenAt(s, p);
      IsWord(t) && p + |Prefix| + |t| < |s| && s[p..p + |Prefix| + |t| + 1] == Prefix + t + ">"
  {
    GroupSpells(Prefix, s, p);
  }

  /** Text that reads `Prefix`, then a word, then `>` is a match with that word as token. */
  lemma SpelledMatch(s: string, p: nat, t: string)
    requires IsWord(t) && p + |Prefix| + |t| < |s|
    requires s[p..p + |Prefix| + |t| + 1] == Prefix + t + ">"
    ensures MatchAt(s, p) && TokenAt(s, p) == t
  {
    SpelledGroup(Prefix, s, p, t);
  }

  /**
   * The hand-written match is the regular expression's: the pattern matches at
   * `p` with group `t` exactly when the text at `p` reads `Prefix`, then `t`,
   * then `>`, with `t` a non-empty run of word characters.
   */
  lemma MatchAtIff(s: string, p: nat, t: string)
    ensures (MatchAt(s, p) && TokenAt(s, p) == t)
        <==> (IsWord(t) && p + |Prefix| + |t| < |s|
              && s[p..p + |Prefix| + |t| + 1] == Prefix + t + ">")
  {
    if MatchAt(s, p) && TokenAt(s, p) == t {
      MatchSpells(s, p);
    }
    if IsWord(t) && p + |Prefix| + |t| < |s| && s[p..p + |Prefix| + |t| + 1] == Prefix + t + ">" {
      SpelledMatch(s, p, t);
    }
  }

  /** A match with no match before it is the one the search reports. */
  lemma FirstMatchFound(s: string, p: nat)
    requires p <= |s| && MatchAt(s, p)
    requires forall q :: 0 <= q < p ==> !MatchAt(s, q)
    ensures ExtractNonce(s) == Some(TokenAt(s, p))
  {
    assert FindMatch(s, 0) == Some(p);
  }

  /** No proper suffix of `lit` is also a prefix of it, so two copies of `lit` never overlap. */
  ghost predicate BorderFree(lit: string)
  {
    forall d :: 0 < d < |lit| ==> lit[d..] != lit[..|lit| - d]
  }

  /** The literal of the pattern has no border. */
  lemma PrefixBorderFree()
    ensures BorderFree(Prefix)
  {
    forall d | 0 < d < |Prefix|
      ensures Prefix[d..] != Prefix[..|Prefix| - d]
    {
      if d == 9 {
        assert Prefix[d..][1] != Prefix[..|Prefix| - d][1];
      } else {
        assert Prefix[d..][0] != Prefix[..|Prefix| - d][0];
      }
    }
  }

  /** `lit` occurs in `s` at position `q`. */
  predicate CopyAt(lit: string, s: string, q: nat)
  {
    q + |lit| <= |s| && s[q..q + |lit|] == lit
  }

  /** Two copies of `lit` that overlap, `d` positions apart, make a border of length `|lit| - d`. */
  lemma OverlapIsBorder(lit: string, s: string, q: nat, d: nat)
    requires 0 < d < |lit|
    requires CopyAt(lit, s, q) && CopyAt(lit, s, q + d)
    ensures lit[d..] == lit[..|lit| - d]
  {
    forall k | 0 <= k < |lit| - d
      ensures lit[d..][k] == lit[..|lit| - d][k]
    {
      assert s[q..q + |lit|][d + k] == s[q + d..q + d + |lit|][k];
    }
  }

  /**
   * A settings page that renders the hidden nonce field after markup in which
   * the literal of the pattern does not occur yields exactly the rendered token.
   */
  lemma RenderedNonce(before: string, token: string, after: string)
    requires forall q: nat :: !CopyAt(Prefix, before, q)
    requires IsWord(token)
    ensures ExtractNonce(before + Prefix + token + ">" + after) == Some(token)
  {
    var s := before + Prefix + token + ">" + after;
    var p := |before|;
    assert s[p..p + |Prefix| + |token| + 1] == Prefix + token + ">";
    assert CopyAt(Prefix, s, p);
    SpelledMatch(s, p, token);
    PrefixBorderFree();
    forall q | 0 <= q < p
      ensures !MatchAt(s, q)
    {
      if q + |Prefix| <= p {
        assert !CopyAt(Prefix, before, q);
        assert s[q..q + |Prefix|] == before[q..q + |Prefix|];
      } else if CopyAt(Prefix, s, q) {
        OverlapIsBorder(Prefix, s, q, p - q);
      }
    }
    FirstMatchFound(s, p);
  }

  /** The field as the router renders it, after the start of its `input` tag. */
  lemma HiddenInputNonce(token: string)
    requires IsWord(token)
    ensures ExtractNonce("<input type=\"hidden\" name=" + Prefix + token + ">") == Some(token)
  {
    var before := "<input type=\"hidden\" name=";
    forall q: nat
      ensures !CopyAt(Prefix, before, q)
    {
      if q + |Prefix| <= |before| {
        assert q <= 1;
        assert before[q..q + |Prefix|][0] == before[q] != Prefix[0];
      }
    }
    RenderedNonce(before, token, "");
    assert before + Prefix + token + ">" + "" == before + Prefix + token + ">";
  }
}
