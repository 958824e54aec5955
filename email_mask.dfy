/** The masking of an e-mail address in the reply of the forget-password route, the expression
    email.replace(/(.{2})(.*)(?=@)/, (_, a, b) => a + b.replace(/./g, '*')).

    The pattern is not global, so only the first match is replaced. A match starts at the leftmost
    position i where two characters other than line terminators are followed by a run of such
    characters that reaches an '@'; the run is greedy, so it ends at the last '@' it can reach. The
    two characters are kept, the run is starred, and the '@' (a look-ahead) and everything after it
    are kept. */
module EmailMask {
  import opened Js
  import EmailFormat

  /** The pattern matches at i, with the look-ahead '@' at k. */
  predicate MatchAt(s: string, i: nat, k: nat) {
    i + 2 <= k < |s| && s[k] == '@' && forall j :: i <= j < k ==> !IsLineTerminator(s[j])
  }

  /** The end of the run of characters other than line terminators that starts at i. */
  function RunEnd(s: string, i: nat): (e: nat)
    requires i <= |s|
    ensures i <= e <= |s|
    ensures forall j :: i <= j < e ==> !IsLineTerminator(s[j])
    ensures e < |s| ==> IsLineTerminator(s[e])
    decreases |s| - i
  {
    if i == |s| || IsLineTerminator(s[i]) then i else RunEnd(s, i + 1)
  }

  /** The last '@' in s[lo..hi], if any. */
  function LastAt(s: string, lo: nat, hi: nat): (r: Option<nat>)
    requires hi <= |s|
    ensures r.Some? ==> lo <= r.value < hi && s[r.value] == '@'
    ensures r.Some? ==> forall j :: r.value < j < hi ==> s[j] != '@'
    ensures r.None? ==> forall j :: lo <= j < hi ==> s[j] != '@'
    decreases hi
  {
    if hi <= lo then None
    else if s[hi - 1] == '@' then Some(hi - 1)
    else LastAt(s, lo, hi - 1)
  }

  /** The first match at or after i, as the regular-expression search finds it: the leftmost start,
      and for that start the greedy (largest) position of the '@'. None when nothing matches. */
  function FindMatch(s: string, i: nat): (r: Option<(nat, nat)>)
    requires i <= |s|
    ensures r.Some? ==> i <= r.value.0 && MatchAt(s, r.value.0, r.value.1)
    ensures r.Some? ==> forall k: nat :: MatchAt(s, r.value.0, k) ==> k <= r.value.1
    ensures r.Some? ==> forall i': nat, k: nat :: i <= i' < r.value.0 ==> !MatchAt(s, i', k)
    ensures r.None? ==> forall i': nat, k: nat :: i <= i' ==> !MatchAt(s, i', k)
    decreases |s| - i
  {
    if i + 2 > |s| then None
    else
      var e := RunEnd(s, i);
      match LastAt(s, i + 2, e)
      case Some(k) => Some((i, k))
      case None => FindMatch(s, i + 1)
  }

  function Stars(n: nat): (r: string)
    ensures |r| == n && forall j :: 0 <= j < n ==> r[j] == '*'
  {
    if n == 0 then "" else Stars(n - 1) + "*"
  }

  /** The masked address: the part before the match and its first two characters, then a star for
      every character of the run, then the rest from the '@' on. Unchanged when nothing matches. */
  function Mask(s: string): (r: string)
    ensures |r| == |s|
  {
    match FindMatch(s, 0)
    case None => s
    case Some((i, k)) => s[..i + 2] + Stars(k - i - 2) + s[k..]
  }

  /** An address whose only '@' is at a, with no line terminator before it: the first two characters
      and everything from the '@' on are kept, and the characters between are starred; a local part
      of fewer than three characters leaves the address unchanged. */
  lemma MaskSingleAt(s: string, a: nat)
    requires a < |s| && s[a] == '@'
    requires forall j :: 0 <= j < |s| && j != a ==> s[j] != '@'
    requires forall j :: 0 <= j < a ==> !IsLineTerminator(s[j])
    ensures forall j :: 0 <= j < |s| ==> Mask(s)[j] == if 2 <= j < a then '*' else s[j]
    ensures a < 3 ==> Mask(s) == s
  {
    var m := Mask(s);
    var r := FindMatch(s, 0);
    if a >= 2 {
      assert MatchAt(s, 0, a);
      var (i, k) := r.value;
      assert i == 0 && k == a;
      var st := Stars(a - 2);
      assert m == s[..2] + st + s[a..];
      forall j | 0 <= j < |s|
        ensures m[j] == if 2 <= j < a then '*' else s[j]
      {
        if j < 2 {
          assert m[j] == s[..2][j];
        } else if j < a {
          assert m[j] == st[j - 2];
        } else {
          assert m[j] == s[a..][j - a];
        }
      }
    } else {
      assert r.None?;
    }
  }

  /** For an address that passes the e-mail pattern, with its '@' at a: the same length, the first
      two characters and the domain kept, the rest of the local part starred. */
  lemma MaskValidEmail(s: string)
    requires EmailFormat.Matches(s)
    ensures var a := EmailFormat.FirstIndex(s, '@');
      && |Mask(s)| == |s|
      && (forall j :: 0 <= j < |s| ==> Mask(s)[j] == if 2 <= j < a then '*' else s[j])
      && (a < 3 ==> Mask(s) == s)
  {
    var a := EmailFormat.MatchesAt(s);
    forall j | 0 <= j < a
      ensures !IsLineTerminator(s[j])
    {
      assert !IsWhitespace(s[j]);
    }
    MaskSingleAt(s, a);
  }
}
