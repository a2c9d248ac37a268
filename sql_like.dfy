/** PostgreSQL's `LIKE` and `ILIKE`, which the product search hands its patterns to. */
module SqlLike {
  import opened Text

  predicate IsWildcard(c: char) {
    c == '%' || c == '_' || c == '\\'
  }

  /** `s LIKE p`: `%` matches any run of characters, `_` any one character, and a backslash
      (the default escape character) makes the next pattern character literal. */
  function Like(s: string, p: string): bool
    decreases |s| + |p|
  {
    if p == [] then s == []
    else if p[0] == '%' then Like(s, p[1..]) || (s != [] && Like(s[1..], p))
    else if s == [] then false
    else if p[0] == '_' then Like(s[1..], p[1..])
    else if p[0] == '\\' && |p| > 1 then s[0] == p[1] && Like(s[1..], p[2..])
    else s[0] == p[0] && Like(s[1..], p[1..])
  }

  /** `s ILIKE p`, with case folded on ASCII letters. */
  function ILike(s: string, p: string): bool {
    Like(Lower(s), Lower(p))
  }

  /** A lone `%` matches everything. */
  lemma {:induction false} PercentMatchesAll(s: string)
    ensures Like(s, "%")
    decreases |s|
  {
    if s != [] {
      PercentMatchesAll(s[1..]);
    }
  }

  /** A pattern without wildcards followed by `%` matches exactly the strings it begins. */
  lemma {:induction false} LiteralPrefix(s: string, t: string)
    requires forall i :: 0 <= i < |t| ==> !IsWildcard(t[i])
    ensures Like(s, t + "%") <==> StartsWith(s, t)
    decreases |t|
  {
    if t == [] {
      assert t + "%" == "%";
      PercentMatchesAll(s);
    } else {
      assert (t + "%")[0] == t[0] && (t + "%")[1..] == t[1..] + "%";
      if s != [] {
        LiteralPrefix(s[1..], t[1..]);
        if StartsWith(s, t) {
          assert s[1..][..|t| - 1] == s[..|t|][1..];
        }
        if StartsWith(s[1..], t[1..]) && s[0] == t[0] {
          assert s[..|t|] == [s[0]] + s[1..][..|t| - 1];
        }
      }
    }
  }

  /** A leading `%` lets the rest of the pattern match any suffix. */
  lemma {:induction false} LeadingPercent(s: string, q: string)
    ensures Like(s, "%" + q) <==> exists k :: 0 <= k <= |s| && Like(s[k..], q)
    decreases |s|
  {
    assert ("%" + q)[0] == '%' && ("%" + q)[1..] == q;
    assert s[0..] == s;
    if s != [] {
      LeadingPercent(s[1..], q);
      if exists k :: 0 <= k <= |s| && Like(s[k..], q) {
        var k :| 0 <= k <= |s| && Like(s[k..], q);
        if k > 0 {
          assert s[1..][k - 1..] == s[k..];
        }
      }
      if exists k :: 0 <= k <= |s[1..]| && Like(s[1..][k..], q) {
        var k :| 0 <= k <= |s[1..]| && Like(s[1..][k..], q);
        assert s[1..][k..] == s[k + 1..];
      }
    }
  }

  /** For a search term without wildcard characters, `%term%` matches exactly the strings
      that contain the term. */
  lemma LikeContains(s: string, t: string)
    requires forall i :: 0 <= i < |t| ==> !IsWildcard(t[i])
    ensures Like(s, "%" + t + "%") <==> Contains(s, t)
  {
    assert "%" + t + "%" == "%" + (t + "%");
    LeadingPercent(s, t + "%");
    if Like(s, "%" + t + "%") {
      var k :| 0 <= k <= |s| && Like(s[k..], t + "%");
      LiteralPrefix(s[k..], t);
      assert OccursAt(t, s, k);
    }
    if Contains(s, t) {
      var k :| OccursAt(t, s, k);
      LiteralPrefix(s[k..], t);
      assert s[k..][..|t|] == s[k..k + |t|];
    }
  }

  /** The wildcards of a search term are not escaped: `_` matches any one character. */
  lemma UnderscoreMatchesAnyCharacter(c: char)
    ensures Like([c], "%_%")
  {
    assert "%_%"[1..] == "_%";
    assert "_%"[1..] == "%";
    PercentMatchesAll([]);
  }
}
