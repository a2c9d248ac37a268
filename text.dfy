/** String helpers shared by the modules that model Python string methods.
    Characters are compared as code points; case mapping is ASCII only. */
module Text {

  /** ASCII lower-casing of one character (`str.lower` restricted to ASCII). */
  function LowerChar(c: char): (r: char)
    ensures 'A' <= c <= 'Z' ==> r as int == c as int + 32
    ensures !('A' <= c <= 'Z') ==> r == c
  {
    if 'A' <= c <= 'Z' then (c as int + 32) as char else c
  }

  function Lower(s: string): (r: string)
    ensures |r| == |s|
    ensures forall i :: 0 <= i < |s| ==> r[i] == LowerChar(s[i])
  {
    if s == [] then [] else [LowerChar(s[0])] + Lower(s[1..])
  }

  lemma LowerAppend(a: string, b: string)
    ensures Lower(a + b) == Lower(a) + Lower(b)
  {
    var joined, parts := Lower(a + b), Lower(a) + Lower(b);
    forall i | 0 <= i < |joined| ensures joined[i] == parts[i] {
      if i < |a| {
        assert (a + b)[i] == a[i];
      } else {
        assert (a + b)[i] == b[i - |a|];
      }
    }
  }

  predicate StartsWith(s: string, prefix: string) {
    |prefix| <= |s| && s[..|prefix|] == prefix
  }

  /** `needle` sits in `hay` at offset `k`. */
  predicate OccursAt(needle: string, hay: string, k: int) {
    0 <= k <= |hay| - |needle| && hay[k..k + |needle|] == needle
  }

  /** `needle in hay` for strings: some window of `hay` equals `needle`. */
  ghost predicate OccursIn(needle: string, hay: string) {
    exists k :: OccursAt(needle, hay, k)
  }

  /** Executable substring test, scanning the start positions of `hay` left to right. */
  function Contains(hay: string, needle: string): (r: bool)
    ensures r <==> OccursIn(needle, hay)
    decreases |hay|
  {
    if StartsWith(hay, needle) then
      assert OccursAt(needle, hay, 0);
      true
    else if hay == [] then
      false
    else
      var r := Contains(hay[1..], needle);
      if r then
        var k :| OccursAt(needle, hay[1..], k);
        assert OccursAt(needle, hay, k + 1) by {
          assert hay[k + 1..k + 1 + |needle|] == hay[1..][k..k + |needle|];
        }
        true
      else
        assert !OccursIn(needle, hay) by {
          forall k | OccursAt(needle, hay, k) ensures k != 0 && OccursAt(needle, hay[1..], k - 1) {
            assert k != 0 by { assert !StartsWith(hay, needle); }
            assert 1 <= k;
            var tail := hay[1..];
            assert tail[k - 1..k - 1 + |needle|] == hay[k..k + |needle|];
          }
        }
        false
  }

  /** The whitespace characters `str.strip()` removes: Python's `str.isspace()` set, which
      adds the ASCII separators 0x1C-0x1F and the Unicode spaces and line separators to the
      usual six. */
  predicate IsSpace(c: char) {
    || c == ' ' || ('\t' <= c <= '\r') || ('\U{1C}' <= c <= '\U{1F}')
    || c == '\U{85}' || c == '\U{A0}' || c == '\U{1680}' || ('\U{2000}' <= c <= '\U{200A}')
    || c == '\U{2028}' || c == '\U{2029}' || c == '\U{202F}' || c == '\U{205F}' || c == '\U{3000}'
  }

  function StripLeft(s: string): (r: string)
    ensures |r| <= |s| && r == s[|s| - |r|..]
    ensures r == [] || !IsSpace(r[0])
    ensures forall i :: 0 <= i < |s| - |r| ==> IsSpace(s[i])
  {
    if s != [] && IsSpace(s[0]) then StripLeft(s[1..]) else s
  }

  function StripRight(s: string): (r: string)
    ensures |r| <= |s| && r == s[..|r|]
    ensures r == [] || !IsSpace(r[|r| - 1])
    ensures forall i :: |r| <= i < |s| ==> IsSpace(s[i])
  {
    if s != [] && IsSpace(s[|s| - 1]) then StripRight(s[..|s| - 1]) else s
  }

  /** `str.strip()`: drops leading and trailing whitespace. */
  function Strip(s: string): (r: string)
    ensures r == [] <==> forall i :: 0 <= i < |s| ==> IsSpace(s[i])
    ensures r != [] ==> !IsSpace(r[0]) && !IsSpace(r[|r| - 1])
  {
    var l := StripLeft(s);
    var r := StripRight(l);
    assert r == [] ==> forall i :: 0 <= i < |s| ==> IsSpace(s[i]) by {
      if r == [] {
        forall i | 0 <= i < |s| ensures IsSpace(s[i]) {
          assert l == [];
        }
      }
    }
    r
  }

  /** `sep.join(parts)`. */
  function Join(parts: seq<string>, sep: string): string {
    if parts == [] then []
    else if |parts| == 1 then parts[0]
    else parts[0] + sep + Join(parts[1..], sep)
  }
}
