/** The three pieces of Python text handling the scraper relies on:
    `str.isspace` (which characters count as whitespace), `str.strip()`
    with no argument (a forward scan past leading whitespace, then a
    backward scan past trailing whitespace) and `" ".join(parts)`. */
module Text {

  /** A character `str.strip()` removes: one for which Python's
      `str.isspace()` holds. These are tab to carriage return, the
      information separators U+001C to U+001F, space, next line, no-break
      space, the Ogham space mark, the Unicode spaces U+2000 to U+200A, the
      line and paragraph separators, the narrow no-break space, the medium
      mathematical space and the ideographic space. */
  predicate IsSpace(c: char)
    ensures c == ' ' || c == '\t' || c == '\n' || c == '\r' ==> IsSpace(c)
    ensures '0' <= c <= '9' || 'a' <= c <= 'z' || 'A' <= c <= 'Z' ==> !IsSpace(c)
    ensures IsSpace(c) ==> c as int <= 0x3000
  {
    var n := c as int;
    (0x09 <= n <= 0x0D) || (0x1C <= n <= 0x20) || n == 0x85 || n == 0xA0 ||
    n == 0x1680 || (0x2000 <= n <= 0x200A) || n == 0x2028 || n == 0x2029 ||
    n == 0x202F || n == 0x205F || n == 0x3000
  }

  /** Every character is whitespace (this includes the empty string). */
  predicate IsBlank(s: string) {
    forall i :: 0 <= i < |s| ==> IsSpace(s[i])
  }

  /** Neither the first nor the last character is whitespace. */
  predicate IsStripped(s: string) {
    s == [] || (!IsSpace(s[0]) && !IsSpace(s[|s| - 1]))
  }

  /** The forward scan of `strip`: from index `i`, the index of the first
      character that is not whitespace, or `|s|` when there is none. */
  function SkipSpaces(s: string, i: nat): (k: nat)
    requires i <= |s|
    ensures i <= k <= |s|
    ensures forall j :: i <= j < k ==> IsSpace(s[j])
    ensures k < |s| ==> !IsSpace(s[k])
    decreases |s| - i
  {
    if i < |s| && IsSpace(s[i]) then SkipSpaces(s, i + 1) else i
  }

  /** The backward scan of `strip`: from the end `hi` down to no further
      than `lo`, the end of the text once trailing whitespace is dropped. */
  function SkipSpacesBack(s: string, lo: nat, hi: nat): (k: nat)
    requires lo <= hi <= |s|
    ensures lo <= k <= hi
    ensures forall j :: k <= j < hi ==> IsSpace(s[j])
    ensures k > lo ==> !IsSpace(s[k - 1])
    decreases hi - lo
  {
    if lo < hi && IsSpace(s[hi - 1]) then SkipSpacesBack(s, lo, hi - 1) else hi
  }

  /** `s.strip()`: the slice between the two scans. It neither starts nor
      ends with whitespace, and it is empty exactly when `s` is blank. */
  function Strip(s: string): (r: string)
    ensures IsStripped(r)
    ensures r == [] <==> IsBlank(s)
  {
    var a := SkipSpaces(s, 0);
    var b := SkipSpacesBack(s, a, |s|);
    assert a < b ==> s[a..b][0] == s[a] && s[a..b][b - a - 1] == s[b - 1];
    assert a == b ==> IsBlank(s);
    s[a..b]
  }

  /** The reference reading of `strip`: any slice of `s` that has nothing
      but whitespace outside it and no whitespace at either of its ends is
      `Strip(s)`. */
  lemma StripUnique(s: string, a: nat, b: nat)
    requires a <= b <= |s| && IsStripped(s[a..b])
    requires forall j :: 0 <= j < a ==> IsSpace(s[j])
    requires forall j :: b <= j < |s| ==> IsSpace(s[j])
    ensures Strip(s) == s[a..b]
  {
    var k := SkipSpaces(s, 0);
    if a == b {
      assert IsBlank(s);
    } else {
      assert s[a..b][0] == s[a] && s[a..b][b - a - 1] == s[b - 1];
      assert k == a;
      var m := SkipSpacesBack(s, k, |s|);
      assert m == b;
    }
  }

  /** Stripping text that has no outer whitespace gives it back. */
  lemma StripStripped(s: string)
    requires IsStripped(s)
    ensures Strip(s) == s
  {
    StripUnique(s, 0, |s|);
    assert s[0..|s|] == s;
  }

  /** `strip` is idempotent. */
  lemma StripIdempotent(s: string)
    ensures Strip(Strip(s)) == Strip(s)
  {
    StripStripped(Strip(s));
  }

  /** `" ".join(parts)`: the parts in order with one space between neighbours.
      The join of one part is that part; otherwise the join begins with the
      first part, followed by a space when another part comes. */
  function JoinSpaces(parts: seq<string>): (r: string)
    ensures parts == [] ==> r == ""
    ensures |parts| == 1 ==> r == parts[0]
    ensures parts != [] ==> parts[0] <= r
    ensures |parts| > 1 ==> |parts[0]| < |r| && r[|parts[0]|] == ' '
  {
    if parts == [] then ""
    else if |parts| == 1 then parts[0]
    else parts[0] + " " + JoinSpaces(parts[1..])
  }

  /** Joining two runs of parts is joining each run and putting one space
      between the two results when both runs are non-empty. */
  lemma {:induction false} JoinSpacesAppend(a: seq<string>, b: seq<string>)
    ensures JoinSpaces(a + b) ==
      if a == [] then JoinSpaces(b)
      else if b == [] then JoinSpaces(a)
      else JoinSpaces(a) + " " + JoinSpaces(b)
  {
    if a == [] {
      assert a + b == b;
    } else if b == [] {
      assert a + b == a;
    } else if |a| == 1 {
      assert (a + b)[0] == a[0] && (a + b)[1..] == b;
    } else {
      assert (a + b)[0] == a[0] && (a + b)[1..] == a[1..] + b;
      JoinSpacesAppend(a[1..], b);
    }
  }

  /** When no part is empty, the join is empty exactly when there are no parts,
      and it starts with the first part's first character and ends with the
      last part's last character. */
  lemma {:induction false} JoinSpacesEnds(parts: seq<string>)
    requires forall i :: 0 <= i < |parts| ==> parts[i] != ""
    ensures var r := JoinSpaces(parts);
      (r == "" <==> parts == []) &&
      (parts != [] ==> r[0] == parts[0][0] && r[|r| - 1] == parts[|parts| - 1][|parts[|parts| - 1]| - 1])
  {
    if |parts| > 1 {
      JoinSpacesEnds(parts[1..]);
    }
  }

  /** Joining parts that are non-empty and have no outer whitespace gives
      text without outer whitespace. */
  lemma JoinSpacesStripped(parts: seq<string>)
    requires forall i :: 0 <= i < |parts| ==> parts[i] != "" && IsStripped(parts[i])
    ensures IsStripped(JoinSpaces(parts))
    ensures JoinSpaces(parts) == "" <==> parts == []
  {
    JoinSpacesEnds(parts);
  }
}
