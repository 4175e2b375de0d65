/** The two computations the command-line entry point performs on its
    arguments: reading the quality ceiling from `--quality`, and the name of
    the sub-directory for a file of links, `args.file[:args.file.rfind(".")]`. */
module Cli {
  import opened Wrappers
  import Decimal

  /** The ceiling used when `--quality` is absent or malformed. */
  const DefaultQuality: nat := 1080

  /** `re.fullmatch(r"\d{3,4}p", s)`, with ASCII digits: three or four
      digits followed by 'p' and nothing else. */
  predicate IsQualityString(s: string)
    ensures IsQualityString(s) <==>
              exists digits :: 3 <= |digits| <= 4 && Decimal.AllDigits(digits) && s == digits + ['p']
  {
    assert forall digits :: s == digits + ['p'] ==> digits == s[..|s| - 1];
    4 <= |s| <= 5 && s[|s| - 1] == 'p' && Decimal.AllDigits(s[..|s| - 1]) &&
    s == s[..|s| - 1] + ['p']
  }

  /** The quality ceiling: the number before the 'p' of a well-formed
      `--quality` argument, 1080 otherwise (an absent argument and the empty
      string included: the pattern rejects the latter too). */
  function ParseQuality(arg: Option<string>): (quality: nat)
    ensures quality <= 9999
    ensures arg.None? ==> quality == DefaultQuality
  {
    if arg.Some? && IsQualityString(arg.value) then
      var digits := arg.value[..|arg.value| - 1];
      assert Decimal.Pow10(|digits|) <= 10000 by {
        assert Decimal.Pow10(3) == 1000;
      }
      Decimal.Value(digits)
    else
      DefaultQuality
  }

  /** Every ceiling from 100 to 9999, written the way the help text shows
      ("720p"), is read back as itself. */
  lemma ParseQualityRoundTrip(n: nat)
    requires 100 <= n <= 9999
    ensures IsQualityString(Decimal.Show(n) + "p")
    ensures ParseQuality(Some(Decimal.Show(n) + "p")) == n
  {
    var s := Decimal.Show(n) + "p";
    Decimal.ShowLength(n);
    assert s[..|s| - 1] == Decimal.Show(n);
    Decimal.ValueShow(n);
  }

  /** A well-formed argument yields the number its digits denote; any other
      argument yields the default. */
  lemma ParseQualityCases(s: string)
    ensures IsQualityString(s) ==> ParseQuality(Some(s)) == Decimal.Value(s[..|s| - 1])
    ensures !IsQualityString(s) ==> ParseQuality(Some(s)) == DefaultQuality
    ensures IsQualityString(s) ==> 100 <= ParseQuality(Some(s)) || s[0] == '0'
  {
    if IsQualityString(s) {
      var digits := s[..|s| - 1];
      if s[0] != '0' {
        LeadingDigit(digits);
      }
    }
  }

  /** A digit string of length three or four without a leading zero is worth
      at least 100. */
  lemma LeadingDigit(digits: string)
    requires 3 <= |digits| && Decimal.AllDigits(digits) && digits[0] != '0'
    ensures 100 <= Decimal.Value(digits)
  {
    var init := digits[..|digits| - 1];
    assert init[0] == digits[0];
    if |digits| == 3 {
      var head := init[..|init| - 1];
      assert head == [digits[0]] && head[..0] == [];
      assert 1 <= Decimal.Value(head);
    } else {
      assert |init| >= 3 && Decimal.AllDigits(init);
      LeadingDigit(init);
    }
  }

  /** Concrete well-formed arguments, a leading zero included. */
  lemma ParseQualityAccepts()
    ensures ParseQuality(Some("1440p")) == 1440
    ensures ParseQuality(Some("0720p")) == 720
  {
    assert "1440p"[..4] == "1440";
    assert "1440"[..3] == "144" && "144"[..2] == "14" && "14"[..1] == "1" && "1"[..0] == "";
    assert "0720p"[..4] == "0720";
    assert "0720"[..3] == "072" && "072"[..2] == "07" && "07"[..1] == "0" && "0"[..0] == "";
  }

  /** A bare number, a two-digit or five-digit number and a "k" suffix all
      fall back to 1080. */
  lemma ParseQualityRejects()
    ensures ParseQuality(Some("720")) == DefaultQuality
    ensures ParseQuality(Some("72p")) == DefaultQuality
    ensures ParseQuality(Some("10800p")) == DefaultQuality
    ensures ParseQuality(Some("4k")) == DefaultQuality
  {
    assert !IsQualityString("720") by {
      assert "720"[2] != 'p';
    }
  }

  /** `s.rfind(c)`: the last position of `c` in `s`, or -1 when there is none. */
  function RFind(s: string, c: char): (i: int)
    ensures -1 <= i < |s|
    ensures i == -1 <==> c !in s
    ensures 0 <= i ==> s[i] == c
    ensures forall j :: i < j < |s| ==> s[j] != c
  {
    if s == [] then -1
    else if s[|s| - 1] == c then |s| - 1
    else RFind(s[..|s| - 1], c)
  }

  /** Python's `s[:k]`: a negative `k` counts from the end, and `k` is
      clamped to the string. */
  function SliceTo(s: string, k: int): (r: string)
    ensures r <= s
    ensures 0 <= k <= |s| ==> |r| == k
    ensures -|s| <= k < 0 ==> |r| == |s| + k
  {
    if 0 <= k then s[..if k <= |s| then k else |s|]
    else if -|s| <= k then s[..|s| + k]
    else []
  }

  /** The sub-directory name for a file of links, as written:
      `args.file[:args.file.rfind(".")]`. */
  function FileStem(path: string): (stem: string)
    ensures stem <= path
    ensures path != [] ==> |stem| < |path|
  {
    SliceTo(path, RFind(path, '.'))
  }

  /** With a dot in the name, the as-written stem is everything before the
      last dot, and what follows that dot holds no other dot. */
  lemma FileStemWithDot(path: string)
    requires '.' in path
    ensures FileStem(path) + path[RFind(path, '.')..] == path
    ensures '.' !in path[RFind(path, '.') + 1..]
  {
    var i := RFind(path, '.');
    assert FileStem(path) == path[..i];
    assert path[..i] + path[i..] == path;
  }

  /** Without a dot, `rfind` yields -1 and the slice drops the last character
      of the name. */
  lemma FileStemWithoutDot(path: string)
    requires '.' !in path && path != []
    ensures FileStem(path) == path[..|path| - 1]
  {
  }

  /** The discrepancy on a concrete name: a file of links called "links"
      gets the directory "link". */
  lemma FileStemDropsLetter()
    ensures FileStem("links") == "link"
    ensures Stem("links") == "links"
  {
    assert RFind("links", '.') == -1 by {
      assert '.' !in "links";
    }
    StemNoExtension("links");
  }

  /** Path separators under the systems the tool runs on. */
  predicate IsSeparator(c: char) {
    c == '/' || c == '\\'
  }

  /** The position of the last separator in `s`, or -1. */
  function LastSeparator(s: string): (i: int)
    ensures -1 <= i < |s|
    ensures 0 <= i ==> IsSeparator(s[i])
    ensures forall j :: i < j < |s| ==> !IsSeparator(s[j])
  {
    if s == [] then -1
    else if IsSeparator(s[|s| - 1]) then |s| - 1
    else LastSeparator(s[..|s| - 1])
  }

  /** Every character of `s` is a dot. */
  predicate AllDots(s: string) {
    forall i :: 0 <= i < |s| ==> s[i] == '.'
  }

  /** The name without its extension, as `os.path.splitext` splits it:
      everything before the last dot of the last path component, unless
      that component holds nothing but dots before it (a dotfile such as
      ".links" has no extension); otherwise the whole name. What remains
      after the stem is either nothing or one dot followed by neither a dot
      nor a separator. */
  function Stem(path: string): (stem: string)
    ensures stem <= path
    ensures |stem| < |path| ==>
              path[|stem|] == '.' && LastSeparator(path) < |stem| &&
              !AllDots(path[LastSeparator(path) + 1..|stem|])
    ensures forall j :: |stem| < j < |path| ==> path[j] != '.' && !IsSeparator(path[j])
  {
    var sep := LastSeparator(path);
    var dot := RFind(path, '.');
    if sep < dot && !AllDots(path[sep + 1..dot]) then path[..dot] else path
  }

  /** A name whose last component has no dot is its own stem. */
  lemma StemNoExtension(path: string)
    requires forall j :: LastSeparator(path) < j < |path| ==> path[j] != '.'
    ensures Stem(path) == path
  {
  }

  /** Where the last component has an extension, the as-written stem and the
      intended one agree: the bug is confined to names without one. */
  lemma StemAgrees(path: string)
    requires LastSeparator(path) < RFind(path, '.')
    requires !AllDots(path[LastSeparator(path) + 1..RFind(path, '.')])
    ensures FileStem(path) == Stem(path)
  {
  }

  /** A dotfile has no extension: a file of links called ".links" gets the
      directory "" as written (the download directory itself), and keeps its
      whole name as intended. */
  lemma FileStemDotfile()
    ensures FileStem(".links") == ""
    ensures Stem(".links") == ".links"
  {
    assert RFind(".links", '.') == 0;
    assert LastSeparator(".links") == -1;
    assert AllDots(".links"[0..0]);
  }
}
