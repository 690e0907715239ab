/** `IsStrongPasswordConstraint.validate`. */
module StrongPassword {
  import opened Wrappers
  import opened Text

  /** Whether some character of `s` satisfies `p` (a regular-expression class test). */
  function AnyChar(s: string, p: char -> bool): (b: bool)
    ensures b <==> exists i :: 0 <= i < |s| && p(s[i])
  {
    if |s| == 0 then false
    else p(s[|s| - 1]) || AnyChar(s[..|s| - 1], p)
  }

  /**
   * `/[A-Z]/`, `/[a-z]/` and `/\d/` all match somewhere; `\d` is ASCII-only
   * without the `u` flag. An absent or empty password is rejected first.
   */
  function Validate(password: Option<string>): (ok: bool)
    ensures ok <==>
      && password.Some?
      && (exists i :: 0 <= i < |password.value| && IsUpper(password.value[i]))
      && (exists i :: 0 <= i < |password.value| && IsLower(password.value[i]))
      && (exists i :: 0 <= i < |password.value| && IsDigit(password.value[i]))
    ensures ok ==> password.value != ""
  {
    if password.None? || password.value == "" then false
    else
      var s := password.value;
      AnyChar(s, IsUpper) && AnyChar(s, IsLower) && AnyChar(s, IsDigit)
  }

  /** The three character classes, stated on the characters a password contains. */
  predicate HasAllClasses(s: string) {
    && (exists c :: c in s && IsUpper(c))
    && (exists c :: c in s && IsLower(c))
    && (exists c :: c in s && IsDigit(c))
  }

  lemma {:induction false} ValidateByContents(s: string)
    ensures Validate(Some(s)) <==> HasAllClasses(s)
  {
    if HasAllClasses(s) {
      var u :| u in s && IsUpper(u);
      var l :| l in s && IsLower(l);
      var d :| d in s && IsDigit(d);
      var iu :| 0 <= iu < |s| && s[iu] == u;
      var il :| 0 <= il < |s| && s[il] == l;
      var id :| 0 <= id < |s| && s[id] == d;
      assert IsUpper(s[iu]) && IsLower(s[il]) && IsDigit(s[id]);
    }
    if Validate(Some(s)) {
      var iu :| 0 <= iu < |s| && IsUpper(s[iu]);
      var il :| 0 <= il < |s| && IsLower(s[il]);
      var id :| 0 <= id < |s| && IsDigit(s[id]);
      assert s[iu] in s && s[il] in s && s[id] in s;
    }
  }

  /** Acceptance depends only on which characters occur, not on their order. */
  lemma {:induction false} OrderIrrelevant(s: string, t: string)
    requires multiset(s) == multiset(t)
    ensures Validate(Some(s)) == Validate(Some(t))
  {
    ValidateByContents(s);
    ValidateByContents(t);
    forall c ensures c in s <==> c in t {
      assert c in s <==> c in multiset(s);
      assert c in t <==> c in multiset(t);
    }
  }

  /** Appending characters, on either side, never makes an accepted password rejected. */
  lemma {:induction false} ExtensionKeepsAccepted(s: string, before: string, after: string)
    requires Validate(Some(s))
    ensures Validate(Some(before + s + after))
  {
    var t := before + s + after;
    ValidateByContents(s);
    ValidateByContents(t);
    forall c | c in s ensures c in t {
      var i :| 0 <= i < |s| && s[i] == c;
      assert t[|before| + i] == c;
    }
  }

  /** There is no length requirement: three characters suffice. */
  lemma ShortPasswordAccepted()
    ensures Validate(Some("aA1"))
  {
    assert IsUpper("aA1"[1]) && IsLower("aA1"[0]) && IsDigit("aA1"[2]);
  }

  /** Rejection of the empty and the absent password. */
  lemma EmptyRejected()
    ensures !Validate(Some("")) && !Validate(None)
  {
  }
}
