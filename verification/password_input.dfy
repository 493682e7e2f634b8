/**
 * The parent's password field: every edit is passed through
 * `value.replace(/\s/g, '')` before it reaches the shared password state
 * (components/admin-screen.tsx), so the child's target never holds whitespace.
 */
module PasswordInput {
  import opened Js
  import Strength

  /** True when `s` holds no code unit matched by `\s`. */
  ghost predicate NoWhitespace(s: JsString) {
    forall i :: 0 <= i < |s| ==> !IsWhitespace(s[i])
  }

  /** `replace(/\s/g, '')`: drop every whitespace code unit, keep the rest in order. */
  function StripWhitespace(s: JsString): (r: JsString)
    ensures NoWhitespace(r)
    ensures |r| <= |s|
    ensures forall c :: !IsWhitespace(c) ==> multiset(r)[c] == multiset(s)[c]
    ensures forall c :: IsWhitespace(c) ==> multiset(r)[c] == 0
  {
    if |s| == 0 then []
    else
      assert s == [s[0]] + s[1..];
      var rest := StripWhitespace(s[1..]);
      if IsWhitespace(s[0]) then rest else [s[0]] + rest
  }

  /** Stripping commutes with concatenation: the kept code units stay in their order. */
  lemma {:induction false} StripAppend(a: JsString, b: JsString)
    ensures StripWhitespace(a + b) == StripWhitespace(a) + StripWhitespace(b)
  {
    if |a| == 0 {
      assert a + b == b;
    } else {
      assert (a + b)[0] == a[0];
      assert (a + b)[1..] == a[1..] + b;
      StripAppend(a[1..], b);
    }
  }

  /** A string without whitespace passes through unchanged. */
  lemma {:induction false} StripKeepsClean(s: JsString)
    requires NoWhitespace(s)
    ensures StripWhitespace(s) == s
  {
    if |s| > 0 {
      StripKeepsClean(s[1..]);
    }
  }

  /** Stripping twice is the same as stripping once. */
  lemma StripIdempotent(s: JsString)
    ensures StripWhitespace(StripWhitespace(s)) == StripWhitespace(s)
  {
    StripKeepsClean(StripWhitespace(s));
  }

  /** Stripping keeps the length exactly when there was no whitespace to remove. */
  lemma {:induction false} StripLengthExact(s: JsString)
    ensures |StripWhitespace(s)| == |s| <==> NoWhitespace(s)
  {
    if |s| > 0 {
      StripLengthExact(s[1..]);
      if NoWhitespace(s) {
        assert NoWhitespace(s[1..]) by {
          forall i | 0 <= i < |s[1..]| ensures !IsWhitespace(s[1..][i]) {
            assert s[1..][i] == s[i + 1];
          }
        }
      } else if !IsWhitespace(s[0]) {
        assert !NoWhitespace(s[1..]) by {
          var i :| 0 <= i < |s| && IsWhitespace(s[i]);
          assert i > 0 && s[1..][i - 1] == s[i];
        }
      }
    }
  }

  /**
   * The strength meter scores the stripped password; stripping never removes
   * a lowercase letter, an uppercase letter or a digit, so those class points
   * are the same before and after.
   */
  lemma {:induction false} StripKeepsAlphanumericClasses(s: JsString, cls: Strength.CharClass)
    requires cls != Strength.Other
    ensures Strength.Contains(StripWhitespace(s), cls) <==> Strength.Contains(s, cls)
  {
    if |s| > 0 {
      StripKeepsAlphanumericClasses(s[1..], cls);
      assert s == [s[0]] + s[1..];
      Strength.ContainsCons(s[0], s[1..], cls);
      if IsWhitespace(s[0]) {
        assert !Strength.InClass(cls, s[0]);
      } else {
        Strength.ContainsCons(s[0], StripWhitespace(s[1..]), cls);
      }
    }
  }
}
