/** The SQL `LIKE` operator as DuckDB evaluates it without an `ESCAPE` clause: `%` matches
    any sequence of characters, `_` matches exactly one, every other character matches
    itself, case-sensitively. */
module SqlLike {
  import opened Strings

  predicate Like(s: string, p: string)
    decreases |s| + |p|
  {
    if p == [] then s == []
    else if p[0] == '%' then Like(s, p[1..]) || (s != [] && Like(s[1..], p))
    else s != [] && (p[0] == '_' || p[0] == s[0]) && Like(s[1..], p[1..])
  }

  /** The pattern text holds neither wildcard. */
  predicate NoWildcards(p: string) {
    forall i :: 0 <= i < |p| ==> p[i] != '%' && p[i] != '_'
  }

  lemma {:induction false} PercentMatchesAll(s: string)
    ensures Like(s, "%")
  {
    if s != [] {
      PercentMatchesAll(s[1..]);
    }
  }

  /** `s LIKE lit || '%'` is a prefix test when `lit` holds no wildcard. */
  lemma {:induction false} LikePrefix(s: string, lit: string)
    requires NoWildcards(lit)
    ensures Like(s, lit + "%") <==> IsPrefix(lit, s)
  {
    if lit == [] {
      assert lit + "%" == "%";
      PercentMatchesAll(s);
    } else {
      assert (lit + "%")[1..] == lit[1..] + "%";
      if s != [] {
        LikePrefix(s[1..], lit[1..]);
        assert IsPrefix(lit, s) <==> lit[0] == s[0] && IsPrefix(lit[1..], s[1..]);
      }
    }
  }

  /** A leading `%` lets the rest of the pattern match any suffix. */
  lemma {:induction false} LikeLeadingPercent(s: string, q: string)
    ensures Like(s, "%" + q) <==> exists k :: 0 <= k <= |s| && Like(s[k..], q)
    decreases |s|
  {
    var p := "%" + q;
    assert p[1..] == q;
    assert s[0..] == s;
    if s != [] {
      LikeLeadingPercent(s[1..], q);
      if Like(s[1..], p) {
        var k :| 0 <= k <= |s[1..]| && Like(s[1..][k..], q);
        assert s[1..][k..] == s[k + 1..];
      }
      if k :| 0 < k <= |s| && Like(s[k..], q) {
        assert s[1..][k - 1..] == s[k..];
      }
    }
  }

  /** `s LIKE '%' || id || '%'` is a substring test when `id` holds no wildcard. */
  lemma LikeContains(s: string, id: string)
    requires NoWildcards(id)
    ensures Like(s, "%" + id + "%") <==> Contains(s, id)
  {
    assert "%" + id + "%" == "%" + (id + "%");
    LikeLeadingPercent(s, id + "%");
    forall k | 0 <= k <= |s|
      ensures Like(s[k..], id + "%") <==> IsPrefix(id, s[k..])
    {
      LikePrefix(s[k..], id);
    }
  }

  /** With a wildcard in the identifier the match is wider than a substring test:
      `_` stands for any character. */
  lemma UnderscoreIsWildcard()
    ensures Like("HOSTX01", "%" + "HOST_01" + "%")
    ensures !Contains("HOSTX01", "HOST_01")
  {
    assert "%" + "HOST_01" + "%" == "%HOST_01%";
    assert Like("", "");
    assert Like("", "%");
    assert Like("1", "1%");
    assert Like("01", "01%");
    assert Like("X01", "_01%");
    assert Like("TX01", "T_01%");
    assert Like("STX01", "ST_01%");
    assert Like("OSTX01", "OST_01%");
    assert Like("HOSTX01", "HOST_01%");
    assert Like("HOSTX01", "%HOST_01%");
    forall k | 0 <= k <= 7
      ensures !IsPrefix("HOST_01", "HOSTX01"[k..])
    {
      if k == 0 {
        assert "HOSTX01"[k..][4] != "HOST_01"[4];
      }
    }
  }
}
