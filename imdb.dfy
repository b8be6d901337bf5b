/**
 * The two string rules of the IMDb Top 250 import command
 * (backend/core/management/commands/fetch_imdb_top250.py): the poster URL
 * rewrite `re.sub(r'\._V1_.*\.jpg', '._V1_.jpg', url)` and the extraction
 * of the IMDb id from a title link.
 */
module Imdb {
  import opened Wrappers

  const V1: string := "._V1_"
  const Jpg: string := ".jpg"
  const Replacement: string := "._V1_.jpg"

  /** Pattern p occurs in s at index i. */
  predicate At(s: string, i: nat, p: string)
  {
    i + |p| <= |s| && s[i..i + |p|] == p
  }

  predicate NoNewline(s: string)
  {
    forall k :: 0 <= k < |s| ==> s[k] != '\n'
  }

  // ---------------------------------------------------------------------
  // Searching
  // ---------------------------------------------------------------------

  /** The first index at or after lo where p occurs. */
  function FirstAt(s: string, p: string, lo: nat): (r: Option<nat>)
    ensures r.Some? ==> lo <= r.value && At(s, r.value, p)
    ensures r.Some? ==> forall k :: lo <= k < r.value ==> !At(s, k, p)
    ensures r.None? ==> forall k :: lo <= k ==> !At(s, k, p)
    decreases |s| - lo
  {
    if lo + |p| > |s| then None
    else if At(s, lo, p) then Some(lo)
    else FirstAt(s, p, lo + 1)
  }

  /** The last index j with lo <= j and j + |p| <= hi where p occurs. */
  function LastAt(s: string, p: string, lo: nat, hi: nat): (r: Option<nat>)
    ensures r.Some? ==> lo <= r.value && r.value + |p| <= hi && At(s, r.value, p)
    ensures r.Some? ==> forall k :: r.value < k && k + |p| <= hi ==> !At(s, k, p)
    ensures r.None? ==> forall k :: lo <= k && k + |p| <= hi ==> !At(s, k, p)
    decreases hi
  {
    if hi < lo + |p| then None
    else if At(s, hi - |p|, p) then Some(hi - |p|)
    else LastAt(s, p, lo, hi - 1)
  }

  /** The end of the line that position k is on: where `.` stops matching. */
  function LineEnd(s: string, k: nat): (e: nat)
    requires k <= |s|
    ensures k <= e <= |s|
    ensures forall m :: k <= m < e ==> s[m] != '\n'
    ensures e < |s| ==> s[e] == '\n'
    decreases |s| - k
  {
    if k == |s| || s[k] == '\n' then k else LineEnd(s, k + 1)
  }

  // ---------------------------------------------------------------------
  // re.sub as Python's regular-expression engine runs it
  // ---------------------------------------------------------------------

  /**
   * Where a match that starts with "._V1_" at i ends: the greedy `.*`
   * runs to the end of the line and backs off to the last ".jpg" that
   * starts on that line at or after i + 5.
   */
  function GreedyJpg(s: string, i: nat): (r: Option<nat>)
    requires i + |V1| <= |s|
    ensures r.Some? ==> i + |V1| <= r.value && At(s, r.value, Jpg)
  {
    LastAt(s, Jpg, i + |V1|, LineEnd(s, i + |V1|))
  }

  /** The leftmost match at or after k, as (start, start of its ".jpg"). */
  function FirstMatch(s: string, k: nat): (r: Option<(nat, nat)>)
    ensures r.Some? ==> k <= r.value.0 && r.value.0 + |V1| <= r.value.1 && r.value.1 + |Jpg| <= |s|
    ensures r.Some? ==> At(s, r.value.0, V1) && At(s, r.value.1, Jpg)
    decreases |s| - k
  {
    if k + |V1| > |s| then None
    else if At(s, k, V1) && GreedyJpg(s, k).Some? then Some((k, GreedyJpg(s, k).value))
    else FirstMatch(s, k + 1)
  }

  /** Every non-overlapping match from k on replaced, left to right. */
  function SubFrom(s: string, k: nat): string
    requires k <= |s|
    decreases |s| - k
  {
    match FirstMatch(s, k)
    case None => s[k..]
    case Some((i, j)) => s[k..i] + Replacement + SubFrom(s, j + |Jpg|)
  }

  /** get_high_res_poster_url: "" for an empty URL, otherwise the substitution. */
  function HighResPosterUrl(imageUrl: string): string
  {
    if imageUrl == "" then "" else SubFrom(imageUrl, 0)
  }

  // ---------------------------------------------------------------------
  // The rewrite in closed form
  // ---------------------------------------------------------------------

  /**
   * The span from the first "._V1_" to the end of the last ".jpg" that
   * starts after it becomes "._V1_.jpg"; without such a pair the URL is
   * unchanged.
   */
  function Rewritten(s: string): (r: string)
    ensures FirstAt(s, V1, 0).None? ==> r == s
    ensures FirstAt(s, V1, 0).Some? && LastAt(s, Jpg, FirstAt(s, V1, 0).value + |V1|, |s|).None? ==> r == s
  {
    match FirstAt(s, V1, 0)
    case None => s
    case Some(i) => (
      match LastAt(s, Jpg, i + |V1|, |s|)
      case None => s
      case Some(j) => s[..i] + Replacement + s[j + |Jpg|..])
  }

  lemma LineEndWithoutNewline(s: string, k: nat)
    requires k <= |s| && NoNewline(s)
    ensures LineEnd(s, k) == |s|
  {
  }

  /** The first "._V1_" at or after k with the last ".jpg" after it, if both exist. */
  function MatchFrom(s: string, k: nat): (r: Option<(nat, nat)>)
    ensures r.Some? ==> k <= r.value.0 && r.value.0 + |V1| <= r.value.1
    ensures r.Some? ==> At(s, r.value.0, V1) && At(s, r.value.1, Jpg)
    ensures r.Some? ==> forall q :: k <= q < r.value.0 ==> !At(s, q, V1)
    ensures r.Some? ==> forall q :: r.value.1 < q ==> !At(s, q, Jpg)
  {
    match FirstAt(s, V1, k)
    case None => None
    case Some(i) => (
      match LastAt(s, Jpg, i + |V1|, |s|)
      case None => None
      case Some(j) => Some((i, j)))
  }

  /**
   * On newline-free input the engine's leftmost match starts at the first
   * "._V1_" and ends at the last ".jpg" after it, or there is none.
   */
  lemma {:induction false} FirstMatchWithoutNewline(s: string, k: nat)
    requires NoNewline(s)
    ensures FirstMatch(s, k) == MatchFrom(s, k)
    decreases |s| - k
  {
    if k + |V1| <= |s| {
      LineEndWithoutNewline(s, k + |V1|);
      if !(At(s, k, V1) && GreedyJpg(s, k).Some?) {
        FirstMatchWithoutNewline(s, k + 1);
        MatchFromStep(s, k);
      }
    }
  }

  /**
   * Without a match starting at k, the first match from k is the first
   * from k + 1: a "._V1_" at k with no ".jpg" after it leaves none after
   * any later "._V1_" either.
   */
  lemma MatchFromStep(s: string, k: nat)
    requires k + |V1| <= |s|
    requires !(At(s, k, V1) && LastAt(s, Jpg, k + |V1|, |s|).Some?)
    ensures MatchFrom(s, k) == MatchFrom(s, k + 1)
  {
    if At(s, k, V1) {
      match FirstAt(s, V1, k + 1) {
        case None =>
        case Some(i) =>
          assert LastAt(s, Jpg, i + |V1|, |s|).None?;
      }
    }
  }

  /** After the last ".jpg" of a match there is no further match. */
  lemma NoMatchAfterLastJpg(s: string, i: nat, j: nat)
    requires NoNewline(s)
    requires MatchFrom(s, 0) == Some((i, j))
    ensures j + |Jpg| <= |s| && FirstMatch(s, j + |Jpg|) == None
  {
    FirstMatchWithoutNewline(s, j + |Jpg|);
    match FirstAt(s, V1, j + |Jpg|) {
      case None =>
      case Some(i2) =>
        assert LastAt(s, Jpg, i2 + |V1|, |s|).None?;
    }
  }

  /** On newline-free input the substitution is the closed-form rewrite. */
  lemma HighResPosterUrlIsRewrite(s: string)
    requires NoNewline(s)
    ensures HighResPosterUrl(s) == Rewritten(s)
  {
    if s != "" {
      FirstMatchWithoutNewline(s, 0);
      RewrittenByMatch(s);
      match MatchFrom(s, 0) {
        case None =>
          assert SubFrom(s, 0) == s[0..] == s;
        case Some((i, j)) =>
          NoMatchAfterLastJpg(s, i, j);
          SubFromOneMatch(s, i, j);
      }
    }
  }

  /** Rewritten spelled out through MatchFrom. */
  lemma RewrittenByMatch(s: string)
    ensures MatchFrom(s, 0).None? ==> Rewritten(s) == s
    ensures MatchFrom(s, 0).Some? ==>
      Rewritten(s) == s[..MatchFrom(s, 0).value.0] + Replacement + s[MatchFrom(s, 0).value.1 + |Jpg|..]
  {
  }

  /** A single match (i, j) with nothing after it is replaced once. */
  lemma SubFromOneMatch(s: string, i: nat, j: nat)
    requires FirstMatch(s, 0) == Some((i, j))
    requires j + |Jpg| <= |s| && FirstMatch(s, j + |Jpg|) == None
    ensures SubFrom(s, 0) == s[..i] + Replacement + s[j + |Jpg|..]
  {
    assert SubFrom(s, j + |Jpg|) == s[j + |Jpg|..];
    assert s[0..i] == s[..i];
  }

  /** The empty URL gives "". */
  lemma EmptyUrl()
    ensures HighResPosterUrl("") == ""
  {
  }

  /**
   * The text before the first "._V1_" and after the last ".jpg" is kept,
   * and exactly "._V1_.jpg" stands between them.
   */
  lemma RewriteKeepsPrefixAndSuffix(s: string, i: nat, j: nat)
    requires NoNewline(s)
    requires At(s, i, V1) && forall k :: 0 <= k < i ==> !At(s, k, V1)
    requires i + |V1| <= j && At(s, j, Jpg) && forall k :: j < k ==> !At(s, k, Jpg)
    ensures HighResPosterUrl(s) == s[..i] + Replacement + s[j + |Jpg|..]
  {
    HighResPosterUrlIsRewrite(s);
    FirstAtIs(s, V1, 0, i);
    LastAtIs(s, Jpg, i + |V1|, |s|, j);
  }

  /** A URL without "._V1_" followed by ".jpg" is returned unchanged. */
  lemma NoMatchUnchanged(s: string)
    requires NoNewline(s)
    requires forall i: nat, j: nat :: At(s, i, V1) && i + |V1| <= j ==> !At(s, j, Jpg)
    ensures HighResPosterUrl(s) == s
  {
    HighResPosterUrlIsRewrite(s);
  }

  /** An occurrence inside a prefix of s is an occurrence in s. */
  lemma AtPrefix(s: string, n: nat, k: nat, p: string)
    requires n <= |s|
    ensures At(s[..n], k, p) ==> At(s, k, p)
  {
    if k + |p| <= n {
      assert s[..n][k..k + |p|] == s[k..k + |p|];
    }
  }

  /** "._V1_" cannot start in pre and run into a following "._V1_.jpg". */
  lemma NoStraddle(pre: string, post: string, k: nat)
    requires k < |pre|
    ensures !At(pre + Replacement + post, k, V1) || At(pre, k, V1)
  {
    var r := pre + Replacement + post;
    if k + |V1| <= |pre| {
      assert r[k..k + |V1|] == pre[k..k + |V1|];
    } else if k + |V1| <= |r| {
      var d := |pre| - k;
      assert r[k..k + |V1|][d] == r[|pre|] == '.';
      assert V1[d] != '.';
    }
  }

  /** A ".jpg" in the rewrite that starts after "._V1_" lies wholly in post. */
  lemma JpgAfterReplacement(pre: string, post: string, k: nat)
    requires |pre| + |V1| < k
    requires At(pre + Replacement + post, k, Jpg)
    ensures |pre| + |Replacement| <= k && At(post, k - |pre| - |Replacement|, Jpg)
  {
    var r := pre + Replacement + post;
    assert r[k] == '.' by {
      assert r[k..k + |Jpg|][0] == r[k];
    }
    forall q | |pre| + |V1| < q < |pre| + |Replacement|
      ensures r[q] != '.'
    {
      assert r[q] == Replacement[q - |pre|];
    }
    var m := k - |pre| - |Replacement|;
    forall t | 0 <= t < |Jpg|
      ensures post[m + t] == Jpg[t]
    {
      assert r[k + t] == post[m + t];
      assert r[k..k + |Jpg|][t] == r[k + t];
    }
    assert post[m..m + |Jpg|] == Jpg;
  }

  /** FirstAt finds the occurrence that nothing earlier precedes. */
  lemma FirstAtIs(s: string, p: string, lo: nat, i: nat)
    requires lo <= i && At(s, i, p)
    requires forall k :: lo <= k < i ==> !At(s, k, p)
    ensures FirstAt(s, p, lo) == Some(i)
  {
  }

  /** LastAt finds the occurrence that nothing later follows. */
  lemma LastAtIs(s: string, p: string, lo: nat, hi: nat, j: nat)
    requires lo <= j && j + |p| <= hi && At(s, j, p)
    requires forall k :: j < k && k + |p| <= hi ==> !At(s, k, p)
    ensures LastAt(s, p, lo, hi) == Some(j)
  {
  }

  /** The rewrite of s keeps s's first "._V1_" at i. */
  lemma FirstV1OfRewrite(s: string, i: nat, j: nat)
    requires MatchFrom(s, 0) == Some((i, j))
    ensures FirstAt(s[..i] + Replacement + s[j + |Jpg|..], V1, 0) == Some(i)
  {
    var pre, post := s[..i], s[j + |Jpg|..];
    var r := pre + Replacement + post;
    assert At(r, i, V1) by {
      assert r[i..i + |V1|] == Replacement[..|V1|];
    }
    forall k | 0 <= k < i
      ensures !At(r, k, V1)
    {
      NoStraddle(pre, post, k);
      AtPrefix(s, i, k, V1);
    }
    FirstAtIs(r, V1, 0, i);
  }

  /** The rewrite of s has its last ".jpg" right after the "._V1_" at i. */
  lemma LastJpgOfRewrite(s: string, i: nat, j: nat)
    requires MatchFrom(s, 0) == Some((i, j))
    ensures var r := s[..i] + Replacement + s[j + |Jpg|..];
      LastAt(r, Jpg, i + |V1|, |r|) == Some(i + |V1|)
  {
    var pre, post := s[..i], s[j + |Jpg|..];
    var r := pre + Replacement + post;
    assert At(r, i + |V1|, Jpg) by {
      assert r[i + |V1|..i + |V1| + |Jpg|] == Replacement[|V1|..];
    }
    forall k | i + |V1| < k
      ensures !At(r, k, Jpg)
    {
      if At(r, k, Jpg) {
        JpgAfterReplacement(pre, post, k);
        AtSuffix(s, j + |Jpg|, k - |pre| - |Replacement|, Jpg);
      }
    }
    LastAtIs(r, Jpg, i + |V1|, |r|, i + |V1|);
  }

  /** An occurrence inside a suffix of s is an occurrence in s. */
  lemma AtSuffix(s: string, n: nat, k: nat, p: string)
    requires n <= |s|
    ensures At(s[n..], k, p) ==> At(s, n + k, p)
  {
    if k + |p| <= |s| - n {
      assert s[n..][k..k + |p|] == s[n + k..n + k + |p|];
    }
  }

  /** Rewriting an already rewritten URL changes nothing. */
  lemma RewrittenIdempotent(s: string)
    ensures Rewritten(Rewritten(s)) == Rewritten(s)
  {
    var m := MatchFrom(s, 0);
    if m.Some? {
      var i, j := m.value.0, m.value.1;
      var r := s[..i] + Replacement + s[j + |Jpg|..];
      assert Rewritten(s) == r;
      FirstV1OfRewrite(s, i, j);
      LastJpgOfRewrite(s, i, j);
      assert r[..i] == s[..i];
      assert r[i + |Replacement|..] == s[j + |Jpg|..];
    }
  }

  /** The substitution is idempotent on newline-free URLs. */
  lemma HighResPosterUrlIdempotent(s: string)
    requires NoNewline(s)
    ensures HighResPosterUrl(HighResPosterUrl(s)) == HighResPosterUrl(s)
  {
    HighResPosterUrlIsRewrite(s);
    var r := Rewritten(s);
    assert NoNewline(r);
    HighResPosterUrlIsRewrite(r);
    RewrittenIdempotent(s);
  }

  // ---------------------------------------------------------------------
  // imdb_id = href.split('/')[2]
  // ---------------------------------------------------------------------

  /** Python's str.split(sep) with a one-character separator. */
  function Split(s: string, sep: char): (parts: seq<string>)
    ensures |parts| >= 1
    ensures forall k :: 0 <= k < |parts| ==> sep !in parts[k]
  {
    if s == [] then [""]
    else
      var rest := Split(s[1..], sep);
      if s[0] == sep then [""] + rest
      else [[s[0]] + rest[0]] + rest[1..]
  }

  /** str.join, the inverse of Split. */
  function Join(parts: seq<string>, sep: char): string
    requires |parts| >= 1
  {
    if |parts| == 1 then parts[0] else parts[0] + [sep] + Join(parts[1..], sep)
  }

  lemma {:induction false} JoinSplit(s: string, sep: char)
    ensures Join(Split(s, sep), sep) == s
  {
    if s != [] {
      JoinSplit(s[1..], sep);
      var rest := Split(s[1..], sep);
      if s[0] != sep {
        if |rest| > 1 {
          assert ([s[0]] + rest[0]) + [sep] + Join(rest[1..], sep) == [s[0]] + (rest[0] + [sep] + Join(rest[1..], sep));
        }
      }
    }
  }

  /** Splitting a separator-free piece followed by more text. */
  lemma {:induction false} SplitPiece(a: string, sep: char, t: string)
    requires sep !in a
    ensures Split(a + [sep] + t, sep) == [a] + Split(t, sep)
  {
    if a == [] {
      assert a + [sep] + t == [sep] + t;
    } else {
      SplitPiece(a[1..], sep, t);
      assert (a + [sep] + t)[1..] == a[1..] + [sep] + t;
      assert [a[0]] + a[1..] == a;
    }
  }

  /**
   * The id of a title link: the third '/'-separated field. A link with
   * fewer than three fields raises IndexError, which the command catches
   * and skips the item; that is None here.
   */
  function ImdbIdFromHref(href: string): (id: Option<string>)
    ensures id.Some? <==> |Split(href, '/')| > 2
    ensures id.Some? ==> '/' !in id.value
  {
    var parts := Split(href, '/');
    if |parts| > 2 then Some(parts[2]) else None
  }

  /** "/title/<id>/..." gives <id>. */
  lemma ImdbIdOfTitleLink(kind: string, id: string, rest: string)
    requires '/' !in kind && '/' !in id
    ensures ImdbIdFromHref("/" + kind + "/" + id + "/" + rest) == Some(id)
  {
    var href := "/" + kind + "/" + id + "/" + rest;
    assert href == [] + ['/'] + (kind + ['/'] + (id + ['/'] + rest));
    SplitPiece([], '/', kind + ['/'] + (id + ['/'] + rest));
    SplitPiece(kind, '/', id + ['/'] + rest);
    SplitPiece(id, '/', rest);
  }

  lemma ImdbIdExample()
    ensures ImdbIdFromHref("/title/tt0111161/") == Some("tt0111161")
  {
    assert "/title/tt0111161/" == "/" + "title" + "/" + "tt0111161" + "/" + "";
    ImdbIdOfTitleLink("title", "tt0111161", "");
  }

  /** A link with no '/' at all has a single field, so the item is skipped. */
  lemma NoSlashNoId(href: string)
    requires '/' !in href
    ensures ImdbIdFromHref(href) == None
  {
    SplitWithoutSep(href, '/');
  }

  lemma {:induction false} SplitWithoutSep(s: string, sep: char)
    requires sep !in s
    ensures Split(s, sep) == [s]
  {
    if s != [] {
      SplitWithoutSep(s[1..], sep);
      assert [s[0]] + s[1..] == s;
    }
  }
}
