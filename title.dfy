/** `convert_title`: turning a video or playlist title into a string that may
    be used as a file or directory name. */
module Title {

  /** The nine characters replaced, in the order the source replaces them. */
  const IllegalChars: seq<char> := ['<', '>', ':', '"', '/', '\\', '|', '?', '*']

  /** What `convert_title` makes of one character. */
  function Clean(c: char): (d: char)
    ensures d !in IllegalChars
    ensures c in IllegalChars ==> d == ' '
    ensures c !in IllegalChars ==> d == c
  {
    if c in IllegalChars then ' ' else c
  }

  /** Python's `s.replace(c, d)` for a one-character pattern. */
  function Replace(s: string, c: char, d: char): (r: string)
    ensures |r| == |s|
    ensures forall i :: 0 <= i < |s| && s[i] == c ==> r[i] == d
    ensures forall i :: 0 <= i < |s| && s[i] != c ==> r[i] == s[i]
    ensures c != d ==> c !in r
  {
    seq(|s|, i requires 0 <= i < |s| => if s[i] == c then d else s[i])
  }

  /** The title after all nine replacements, character by character. */
  function Sanitize(s: string): (r: string)
    ensures |r| == |s|
    ensures forall i :: 0 <= i < |s| ==> r[i] == Clean(s[i])
    ensures forall i :: 0 <= i < |r| ==> r[i] !in IllegalChars
  {
    if s == [] then [] else [Clean(s[0])] + Sanitize(s[1..])
  }

  /** `convert_title`: one `replace` per illegal character, rebinding the title. */
  method ConvertTitle(title: string) returns (r: string)
    ensures r == Sanitize(title)
  {
    r := title;
    for j := 0 to |IllegalChars|
      invariant |r| == |title|
      invariant forall k :: 0 <= k < |r| ==>
        r[k] == if title[k] in IllegalChars[..j] then ' ' else title[k]
    {
      r := Replace(r, IllegalChars[j], ' ');
    }
    assert IllegalChars[..|IllegalChars|] == IllegalChars;
  }

  /** Sanitising a sanitised title changes nothing. */
  lemma {:induction false} SanitizeIdempotent(s: string)
    ensures Sanitize(Sanitize(s)) == Sanitize(s)
  {
    if s != [] {
      SanitizeIdempotent(s[1..]);
      assert Sanitize(s)[1..] == Sanitize(s[1..]);
    }
  }

  /** A title is left as it is exactly when it holds no illegal character. */
  lemma {:induction false} SanitizeFixedPoints(s: string)
    ensures Sanitize(s) == s <==> forall i :: 0 <= i < |s| ==> s[i] !in IllegalChars
  {
    if s != [] {
      SanitizeFixedPoints(s[1..]);
      assert forall i :: 1 <= i < |s| ==> s[i] == s[1..][i - 1];
    }
  }

  /** Each illegal character becomes one space: "A:B?" gives "A B ". */
  lemma SanitizeExample()
    ensures Sanitize("A:B?") == "A B "
  {
    var r := Sanitize("A:B?");
    assert r[0] == 'A' && r[1] == ' ' && r[2] == 'B' && r[3] == ' ';
  }
}
