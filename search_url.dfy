/** The job-search URL the scraper navigates to (linkedin_scraper.py line 60):
    keyword and location go into the query string with every space written
    as `%20` and no other escaping. */
module SearchUrl {
  import Config

  /** The search page the query string is appended to. */
  const SEARCH_PAGE: string := "https://www.linkedin.com/jobs/search/"

  /** `s.replace(' ', '%20')`. */
  function EncodeSpaces(s: string): (r: string)
    ensures ' ' !in r
  {
    if s == [] then ""
    else (if s[0] == ' ' then "%20" else [s[0]]) + EncodeSpaces(s[1..])
  }

  /** Each space grows by two characters; nothing else changes length. */
  lemma {:induction false} EncodeSpacesLength(s: string)
    ensures |EncodeSpaces(s)| == |s| + 2 * multiset(s)[' ']
  {
    if s != [] {
      assert s == [s[0]] + s[1..];
      EncodeSpacesLength(s[1..]);
    }
  }

  /** Encoding works character by character: the encoding of a concatenation
      is the concatenation of the encodings. */
  lemma {:induction false} EncodeSpacesAppend(a: string, b: string)
    ensures EncodeSpaces(a + b) == EncodeSpaces(a) + EncodeSpaces(b)
  {
    if a == [] {
      assert a + b == b;
    } else {
      assert (a + b)[0] == a[0] && (a + b)[1..] == a[1..] + b;
      EncodeSpacesAppend(a[1..], b);
    }
  }

  /** A character other than a space is kept as it is. */
  lemma EncodeSpacesChar(c: char)
    ensures EncodeSpaces([c]) == if c == ' ' then "%20" else [c]
  {
    assert [c][1..] == [];
  }

  /** Text without spaces is left unchanged, so encoding is idempotent. */
  lemma {:induction false} EncodeSpacesNoSpace(s: string)
    requires ' ' !in s
    ensures EncodeSpaces(s) == s
  {
    if s != [] {
      assert s[0] in s;
      assert forall c :: c in s[1..] ==> c in s;
      EncodeSpacesNoSpace(s[1..]);
    }
  }

  lemma EncodeSpacesIdempotent(s: string)
    ensures EncodeSpaces(EncodeSpaces(s)) == EncodeSpaces(s)
  {
    EncodeSpacesNoSpace(EncodeSpaces(s));
  }

  /** The inverse reading: every `%20` becomes a space again, left to right. */
  function DecodeSpaces(s: string): string
  {
    if |s| >= 3 && s[..3] == "%20" then " " + DecodeSpaces(s[3..])
    else if s == [] then ""
    else [s[0]] + DecodeSpaces(s[1..])
  }

  /** Text without `%` is recovered from its encoding; with a `%` it need not
      be (`"%20"` and `" "` encode alike), since `%` itself is not escaped. */
  lemma {:induction false} DecodeEncodeSpaces(s: string)
    requires '%' !in s
    ensures DecodeSpaces(EncodeSpaces(s)) == s
  {
    if s != [] {
      assert s[0] in s;
      assert forall c :: c in s[1..] ==> c in s;
      var rest := EncodeSpaces(s[1..]);
      DecodeEncodeSpaces(s[1..]);
      if s[0] == ' ' {
        assert ("%20" + rest)[..3] == "%20" && ("%20" + rest)[3..] == rest;
      } else {
        var e := [s[0]] + rest;
        assert e[0] == s[0] && e[1..] == rest;
        assert |e| >= 3 ==> e[..3][0] == s[0];
      }
    }
  }

  /** Both encodings alike: `" "` and `"%20"` give the same segment. */
  lemma PercentNotEscaped()
    ensures EncodeSpaces(" ") == EncodeSpaces("%20")
  {
    EncodeSpacesNoSpace("%20");
  }

  /** The URL for a keyword and a location. */
  function JobSearchUrl(keyword: string, location: string): (url: string)
    ensures ' ' !in url
  {
    var head, sep := SEARCH_PAGE + "?keywords=", "&location=";
    assert ' ' !in head && ' ' !in sep;
    head + EncodeSpaces(keyword) + sep + EncodeSpaces(location)
  }

  /** The URL grows by two characters for each space of the keyword and the
      location. */
  lemma JobSearchUrlLength(keyword: string, location: string)
    ensures |JobSearchUrl(keyword, location)| == |SEARCH_PAGE| + 20 + |keyword| + |location| +
      2 * (multiset(keyword)[' '] + multiset(location)[' '])
  {
    EncodeSpacesLength(keyword);
    EncodeSpacesLength(location);
  }

  /** For every keyword and location, the URL is the search page and
      `?keywords=`, then the encoded keyword, then `&location=`, then the
      encoded location, at these positions. */
  lemma JobSearchUrlLayout(keyword: string, location: string)
    ensures var url, start := JobSearchUrl(keyword, location), |SEARCH_PAGE| + 10;
      var k := EncodeSpaces(keyword);
      |url| >= start + |k| + 10 &&
      url[..start] == SEARCH_PAGE + "?keywords=" &&
      url[start..start + |k|] == k &&
      url[start + |k|..start + |k| + 10] == "&location=" &&
      url[start + |k| + 10..] == EncodeSpaces(location)
  {
    var k := EncodeSpaces(keyword);
    var l := EncodeSpaces(location);
    var head := SEARCH_PAGE + "?keywords=";
    var tail := "&location=" + l;
    var url := JobSearchUrl(keyword, location);
    assert |head| == |SEARCH_PAGE| + 10;
    assert url == head + k + tail;
    assert url[..|head|] == head;
    assert url[|head|..|head| + |k|] == k;
    assert url[|head| + |k|..] == tail;
    assert tail[..10] == "&location=" && tail[10..] == l;
  }

  /** When the keyword holds no `&`, a reader of the URL finds the keyword
      segment as everything between `?keywords=` and the first `&`. */
  lemma JobSearchUrlSegments(keyword: string, location: string)
    requires '&' !in keyword
    ensures var url, start := JobSearchUrl(keyword, location), |SEARCH_PAGE| + 10;
      var k := EncodeSpaces(keyword);
      start + |k| < |url| &&
      url[start + |k|] == '&' &&
      '&' !in url[start..start + |k|] &&
      url[start..start + |k|] == k
  {
    JobSearchUrlLayout(keyword, location);
    var url, start := JobSearchUrl(keyword, location), |SEARCH_PAGE| + 10;
    var k := EncodeSpaces(keyword);
    assert url[start + |k|] == url[start + |k|..start + |k| + 10][0];
    NoAmpersandKept(keyword);
  }

  /** Encoding spaces introduces no `&`. */
  lemma {:induction false} NoAmpersandKept(s: string)
    requires '&' !in s
    ensures '&' !in EncodeSpaces(s)
  {
    if s != [] {
      assert s[0] in s;
      assert forall c :: c in s[1..] ==> c in s;
      NoAmpersandKept(s[1..]);
    }
  }

  /** Two words around one space encode to the words around `%20`. */
  lemma EncodeTwoWords(first: string, second: string)
    requires ' ' !in first && ' ' !in second
    ensures EncodeSpaces(first + " " + second) == first + "%20" + second
  {
    EncodeSpacesAppend(first + " ", second);
    EncodeSpacesAppend(first, " ");
    EncodeSpacesChar(' ');
    EncodeSpacesNoSpace(first);
    EncodeSpacesNoSpace(second);
  }

  /** The configured keyword's segment. */
  lemma ConfiguredKeywordSegment()
    ensures EncodeSpaces(Config.KEYWORD) == "Product" + "%20" + "Manager"
  {
    var first, second := "Product", "Manager";
    assert Config.KEYWORD == first + " " + second;
    EncodeTwoWords(first, second);
  }

  /** The URL the scraper navigates to with its configured keyword and location. */
  lemma ConfiguredSearchUrl()
    ensures JobSearchUrl(Config.KEYWORD, Config.LOCATION) ==
      SEARCH_PAGE + "?keywords=" + ("Product" + "%20" + "Manager") + "&location=" + "India"
  {
    ConfiguredKeywordSegment();
    EncodeSpacesNoSpace(Config.LOCATION);
  }
}
