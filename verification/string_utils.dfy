/** Pure string helpers of src/utils/utils.py and src/utils.py. */
module StringUtils {
  import opened Text

  /** A character of the Basic Multilingual Plane (code point <= U+FFFF). */
  predicate InBmp(c: char) {
    c as int <= 0xFFFF
  }

  predicate AllBmp(s: string) {
    forall i | 0 <= i < |s| :: InBmp(s[i])
  }

  /** `filter_bmp_characters`: `re.sub(r'[^\u0000-￿]', '', text)`. */
  function FilterBmp(s: string): (r: string)
    ensures AllBmp(r)
    ensures |r| <= |s|
    decreases |s|
  {
    if s == [] then []
    else if InBmp(s[0]) then [s[0]] + FilterBmp(s[1..])
    else FilterBmp(s[1..])
  }

  /** The filter keeps the input's order. */
  lemma {:induction false} FilterBmpSubsequence(s: string)
    ensures IsSubsequence(FilterBmp(s), s)
    decreases |s|
  {
    if s != [] {
      FilterBmpSubsequence(s[1..]);
      if InBmp(s[0]) {
        SubsequenceCons(s[0], FilterBmp(s[1..]), s[1..]);
        assert [s[0]] + s[1..] == s;
      } else {
        SubsequenceSkip(FilterBmp(s[1..]), s[0], s[1..]);
        assert [s[0]] + s[1..] == s;
      }
    }
  }

  /** Filtering works piecewise over concatenation. */
  lemma {:induction false} FilterBmpConcat(a: string, b: string)
    ensures FilterBmp(a + b) == FilterBmp(a) + FilterBmp(b)
    decreases |a|
  {
    if a == [] {
      assert a + b == b;
    } else {
      assert (a + b)[0] == a[0];
      assert (a + b)[1..] == a[1..] + b;
      FilterBmpConcat(a[1..], b);
    }
  }

  /** The text is returned unchanged exactly when it is all BMP. */
  lemma {:induction false} FilterBmpFixpoint(s: string)
    ensures FilterBmp(s) == s <==> AllBmp(s)
    decreases |s|
  {
    if s != [] {
      FilterBmpFixpoint(s[1..]);
      if !InBmp(s[0]) {
        // dropping a character makes the result shorter than `s`
        assert |FilterBmp(s)| <= |s[1..]|;
      }
    }
  }

  /** Filtering twice is filtering once. */
  lemma FilterBmpIdempotent(s: string)
    ensures FilterBmp(FilterBmp(s)) == FilterBmp(s)
  {
    FilterBmpFixpoint(FilterBmp(s));
  }

  /** The characters `clean_data_posts` blanks out of post texts. */
  predicate IsSeparator(c: char) {
    c == ',' || c == '\r' || c == '\n'
  }

  /** `re.sub(r'[,\r\n]', ' ', text)`. */
  function ReplaceSeparators(s: string): (r: string)
    ensures |r| == |s|
    ensures forall i | 0 <= i < |r| :: !IsSeparator(r[i])
    ensures forall i | 0 <= i < |s| :: !IsSeparator(s[i]) ==> r[i] == s[i]
    ensures forall i | 0 <= i < |s| :: IsSeparator(s[i]) ==> r[i] == ' '
  {
    seq(|s|, i requires 0 <= i < |s| => if IsSeparator(s[i]) then ' ' else s[i])
  }

  /** Replacing twice is replacing once. */
  lemma ReplaceSeparatorsIdempotent(s: string)
    ensures ReplaceSeparators(ReplaceSeparators(s)) == ReplaceSeparators(s)
  {
  }

  /** The parts of a URL that `extract_relevant_url` keeps, as `urlparse`
      splits them; the parser itself is a parameter. */
  datatype UrlParts = UrlParts(scheme: string, netloc: string, path: string)

  /** `extract_relevant_url`: scheme, `://`, host and path, dropping the
      query and the fragment. Whatever the parser returns, the result holds
      `://` and so is never empty. */
  function ExtractRelevantUrl(parse: string -> UrlParts, url: string): (r: string)
    ensures Contains(r, "://") && r != ""
  {
    var p := parse(url);
    ContainsPart(p.scheme, "://", p.netloc + p.path);
    assert p.scheme + "://" + p.netloc + p.path == p.scheme + "://" + (p.netloc + p.path);
    p.scheme + "://" + p.netloc + p.path
  }

  /** When the parser splits a URL into parts, reassembling them gives the
      URL back without its query and fragment. */
  lemma ExtractRelevantUrlParts(parse: string -> UrlParts, url: string, scheme: string, netloc: string, path: string)
    requires parse(url) == UrlParts(scheme, netloc, path)
    ensures StartsWith(ExtractRelevantUrl(parse, url), scheme + "://")
    ensures ExtractRelevantUrl(parse, url)[|scheme| + 3..] == netloc + path
  {
  }
}
