/**
 * PostgreSQL's `ILIKE` on the pattern `%search%` that `findAll` builds. In a
 * LIKE pattern `%` matches any run of characters, `_` any one character, and
 * a backslash makes the next character literal. The search text is placed
 * in the pattern unescaped, so those three characters in a search act as
 * pattern syntax instead of standing for themselves.
 */
module Like {
  import opened Text
  import Listing

  predicate Special(c: char) {
    c == '%' || c == '_' || c == '\\'
  }

  /** `s LIKE p`, case-sensitive. A backslash at the very end of `p` stands for itself. */
  function LikeMatch(s: string, p: string): bool
    decreases |p|, |s|
  {
    if p == [] then s == []
    else if p[0] == '%' then LikeMatch(s, p[1..]) || (s != [] && LikeMatch(s[1..], p))
    else if s == [] then false
    else if p[0] == '_' then LikeMatch(s[1..], p[1..])
    else if p[0] == '\\' && |p| >= 2 then s[0] == p[1] && LikeMatch(s[1..], p[2..])
    else s[0] == p[0] && LikeMatch(s[1..], p[1..])
  }

  /** `s ILIKE p`: both sides lower-cased (ASCII). */
  predicate ILike(s: string, p: string) {
    LikeMatch(Lower(s), Lower(p))
  }

  /** The search condition as written: `name ILIKE '%' || search || '%'`. */
  predicate SearchAsWritten(name: string, search: string) {
    ILike(name, "%" + search + "%")
  }

  /** The search text with every pattern character made literal. */
  function Escape(t: string): (e: string)
    ensures |e| >= |t|
  {
    if t == [] then []
    else (if Special(t[0]) then ['\\', t[0]] else [t[0]]) + Escape(t[1..])
  }

  /** The search condition with the text escaped first. */
  predicate SearchEscaped(name: string, search: string) {
    ILike(name, "%" + Escape(search) + "%")
  }

  // ---------------------------------------------------------------- lemmas

  /** A lone `%` matches every string. */
  lemma {:induction false} AnyMatchesAll(s: string)
    ensures LikeMatch(s, "%")
  {
    if s != [] {
      AnyMatchesAll(s[1..]);
    }
  }

  /** An escaped text followed by `%` matches exactly the strings that start with the text. */
  lemma {:induction false} EscapedPrefix(s: string, t: string)
    ensures LikeMatch(s, Escape(t) + "%") <==> StartsWith(s, t)
  {
    if t == [] {
      AnyMatchesAll(s);
      assert Escape(t) + "%" == "%";
    } else {
      var p := Escape(t) + "%";
      EscapedPrefix(if s == [] then s else s[1..], t[1..]);
      if Special(t[0]) {
        assert p[0] == '\\' && p[1] == t[0] && p[2..] == Escape(t[1..]) + "%";
      } else {
        assert p[0] == t[0] && p[1..] == Escape(t[1..]) + "%";
      }
      if s != [] {
        assert StartsWith(s, t) <==> s[0] == t[0] && StartsWith(s[1..], t[1..]) by {
          if |t| <= |s| {
            assert s[..|t|] == [s[0]] + s[1..][..|t| - 1];
            assert t == [t[0]] + t[1..];
          }
        }
      }
    }
  }

  /** A leading `%` lets the rest of the pattern match any suffix. */
  lemma {:induction false} LeadingAny(s: string, q: string)
    ensures LikeMatch(s, "%" + q) <==> exists i :: 0 <= i <= |s| && LikeMatch(s[i..], q)
  {
    var p := "%" + q;
    assert p[1..] == q;
    assert s[0..] == s;
    if s != [] {
      LeadingAny(s[1..], q);
      forall i | 0 <= i <= |s[1..]| ensures s[1..][i..] == s[i + 1..] {}
      if LikeMatch(s[1..], p) {
        var i :| 0 <= i <= |s[1..]| && LikeMatch(s[1..][i..], q);
        assert LikeMatch(s[i + 1..], q);
      }
      if exists i :: 0 <= i <= |s| && LikeMatch(s[i..], q) {
        var i :| 0 <= i <= |s| && LikeMatch(s[i..], q);
        if i > 0 {
          assert LikeMatch(s[1..][i - 1..], q);
        }
      }
    }
  }

  /** `%t%` with `t` escaped is a substring test. */
  lemma EscapedContains(s: string, t: string)
    ensures LikeMatch(s, "%" + Escape(t) + "%") <==> Contains(s, t)
  {
    assert "%" + Escape(t) + "%" == "%" + (Escape(t) + "%");
    LeadingAny(s, Escape(t) + "%");
    forall i | 0 <= i <= |s| ensures LikeMatch(s[i..], Escape(t) + "%") <==> StartsWith(s[i..], t) {
      EscapedPrefix(s[i..], t);
    }
    if Contains(s, t) {
      var i :| 0 <= i <= |s| - |t| && OccursAt(s, t, i);
      assert s[i..][..|t|] == s[i..i + |t|];
      assert LikeMatch(s[i..], Escape(t) + "%");
    }
    if LikeMatch(s, "%" + Escape(t) + "%") {
      var i :| 0 <= i <= |s| && LikeMatch(s[i..], Escape(t) + "%");
      assert s[i..][..|t|] == s[i..i + |t|];
      assert OccursAt(s, t, i);
    }
  }

  lemma LowerConcat(a: string, b: string)
    ensures Lower(a + b) == Lower(a) + Lower(b)
  {
  }

  /** Lower-casing and escaping commute: the pattern characters are not letters. */
  lemma {:induction false} LowerEscape(t: string)
    ensures Lower(Escape(t)) == Escape(Lower(t))
  {
    if t != [] {
      LowerEscape(t[1..]);
      var head := if Special(t[0]) then ['\\', t[0]] else [t[0]];
      LowerConcat(head, Escape(t[1..]));
      assert Lower(t) == [LowerChar(t[0])] + Lower(t[1..]);
      assert Lower(t)[1..] == Lower(t[1..]);
    }
  }

  /** A text without pattern characters is its own escape. */
  lemma {:induction false} EscapePlain(t: string)
    requires forall i :: 0 <= i < |t| ==> !Special(t[i])
    ensures Escape(t) == t
  {
    if t != [] {
      EscapePlain(t[1..]);
    }
  }

  /** Escaping the search makes the condition the substring test the listing filter states. */
  lemma EscapedSearchIsSubstring(name: string, search: string)
    ensures SearchEscaped(name, search) <==> Listing.NameMatches(name, search)
  {
    LowerConcat("%" + Escape(search), "%");
    LowerConcat("%", Escape(search));
    LowerEscape(search);
    assert Lower("%") == "%";
    assert Lower("%" + Escape(search) + "%") == "%" + Escape(Lower(search)) + "%";
    EscapedContains(Lower(name), Lower(search));
  }

  /** Without pattern characters in the search, the condition as written is the substring test. */
  lemma PlainSearchAgrees(name: string, search: string)
    requires forall i :: 0 <= i < |search| ==> !Special(search[i])
    ensures SearchAsWritten(name, search) <==> Listing.NameMatches(name, search)
  {
    EscapePlain(search);
    EscapedSearchIsSubstring(name, search);
  }

  /** A search for "%" lists every product, although no name below contains "%". */
  lemma PercentSearchMatchesEverything(name: string)
    requires forall i :: 0 <= i < |name| ==> name[i] != '%'
    ensures SearchAsWritten(name, "%")
    ensures !Listing.NameMatches(name, "%")
  {
    assert Lower("%" + "%" + "%") == "%%%";
    AnyMatchesAll(Lower(name));
    assert "%%%"[1..] == "%%" && "%%"[1..] == "%";
    forall i | 0 <= i <= |name| - 1 ensures !OccursAt(Lower(name), "%", i) {
      assert Lower(name)[i..i + 1] == [LowerChar(name[i])];
    }
    assert Lower("%") == "%";
  }
}
