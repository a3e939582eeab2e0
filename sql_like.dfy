/** The SQL `text LIKE pattern` test the search condition relies on: `%`
    matches any run of characters, `_` any one character, and a backslash
    makes the character after it match only itself. */
module SqlLike {
  import opened Text

  predicate IsLikeMeta(c: char) {
    c == '%' || c == '_' || c == '\\'
  }

  /** True iff `t` matches the whole of pattern `p`. A lone backslash at the
      very end of a pattern matches nothing. */
  function Like(t: string, p: string): bool
    decreases |p| + |t|
  {
    if |p| == 0 then |t| == 0
    else if p[0] == '%' then Like(t, p[1..]) || (|t| > 0 && Like(t[1..], p))
    else if p[0] == '_' then |t| > 0 && Like(t[1..], p[1..])
    else if p[0] == '\\' then |p| >= 2 && |t| > 0 && t[0] == p[1] && Like(t[1..], p[2..])
    else |t| > 0 && t[0] == p[0] && Like(t[1..], p[1..])
  }

  /** Puts a backslash before each character that LIKE would not take literally. */
  function Escape(k: string): (e: string)
    ensures (forall i :: 0 <= i < |k| ==> !IsLikeMeta(k[i])) ==> e == k
  {
    if |k| == 0 then ""
    else if IsLikeMeta(k[0]) then ['\\', k[0]] + Escape(k[1..])
    else [k[0]] + Escape(k[1..])
  }

  /** An escaped text followed by `rest` matches exactly the texts that start
      with that text literally and continue with a match of `rest`. */
  lemma {:induction false} LikeEscaped(t: string, k: string, rest: string)
    ensures Like(t, Escape(k) + rest) <==> IsPrefix(k, t) && Like(t[|k|..], rest)
  {
    if |k| > 0 {
      var e := Escape(k) + rest;
      LikeEscaped(if |t| > 0 then t[1..] else t, k[1..], rest);
      if IsLikeMeta(k[0]) {
        assert e == ['\\', k[0]] + (Escape(k[1..]) + rest);
        assert e[2..] == Escape(k[1..]) + rest;
        assert Like(t, e) <==> |t| > 0 && t[0] == k[0] && Like(t[1..], Escape(k[1..]) + rest);
      } else {
        assert e == [k[0]] + (Escape(k[1..]) + rest);
        assert e[1..] == Escape(k[1..]) + rest;
        assert Like(t, e) <==> |t| > 0 && t[0] == k[0] && Like(t[1..], Escape(k[1..]) + rest);
      }
      if |t| > 0 {
        PrefixStep(k, t);
        if IsPrefix(k, t) {
          assert t[|k|..] == t[1..][|k| - 1..];
        }
      } else {
        assert !IsPrefix(k, t);
      }
    } else {
      assert Escape(k) + rest == rest;
      assert t[|k|..] == t;
    }
  }

  lemma PrefixStep(k: string, t: string)
    requires |k| > 0 && |t| > 0
    ensures IsPrefix(k, t) <==> t[0] == k[0] && IsPrefix(k[1..], t[1..])
  {
    if |k| <= |t| {
      assert t[..|k|] == [t[0]] + t[1..][..|k| - 1];
      assert k == [k[0]] + k[1..];
    }
  }

  /** A pattern made of a single `%` matches every text. */
  lemma {:induction false} LikeAnything(t: string)
    ensures Like(t, "%")
  {
    if |t| > 0 {
      LikeAnything(t[1..]);
    }
  }

  /** A leading `%` lets the rest of the pattern match any suffix. */
  lemma {:induction false} LikeLeadingPercent(t: string, p: string)
    ensures Like(t, "%" + p) <==> exists i :: 0 <= i <= |t| && Like(t[i..], p)
  {
    var q := "%" + p;
    assert q[1..] == p;
    assert t[0..] == t;
    if |t| > 0 {
      LikeLeadingPercent(t[1..], p);
      if Like(t[1..], q) {
        var i :| 0 <= i <= |t[1..]| && Like(t[1..][i..], p);
        assert t[1..][i..] == t[i + 1..];
      }
      if i :| 0 <= i <= |t| && Like(t[i..], p) {
        if i > 0 {
          assert t[1..][i - 1..] == t[i..];
        }
      }
    }
  }

  /** `%k%` with `k` escaped matches exactly the texts that contain `k`. */
  lemma EscapedSubstringPattern(t: string, k: string)
    ensures Like(t, "%" + Escape(k) + "%") <==> IsSubstring(k, t)
  {
    var p := Escape(k) + "%";
    assert "%" + Escape(k) + "%" == "%" + p;
    LikeLeadingPercent(t, p);
    forall i | 0 <= i <= |t|
      ensures Like(t[i..], p) <==> IsPrefix(k, t[i..])
    {
      LikeEscaped(t[i..], k, "%");
      if IsPrefix(k, t[i..]) {
        LikeAnything(t[i..][|k|..]);
      }
    }
  }
}
