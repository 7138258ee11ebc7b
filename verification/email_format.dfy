/** The address-shape check of the add-email handler, the regular expression
    /^[^\s@]+@[^\s@]+\.[^\s@]+$/, and a direct description of what it accepts. */
module EmailFormat {

  /** The characters of JavaScript's `\s` class: the ECMAScript WhiteSpace and
      LineTerminator code points. */
  predicate IsWhitespace(c: char) {
    || c == ' ' || c == '\t' || c == '\n' || c == '\U{000B}' || c == '\U{000C}' || c == '\r'
    || c == '\U{00A0}' || c == '\U{1680}' || ('\U{2000}' <= c <= '\U{200A}')
    || c == '\U{2028}' || c == '\U{2029}' || c == '\U{202F}' || c == '\U{205F}'
    || c == '\U{3000}' || c == '\U{FEFF}'
  }

  /** One character of the class `[^\s@]`. */
  predicate Plain(c: char) {
    !IsWhitespace(c) && c != '@'
  }

  predicate AllPlain(s: string) {
    forall i :: 0 <= i < |s| ==> Plain(s[i])
  }

  /** The language of the pattern: `s` is a + "@" + b + "." + c, where a, b and c are
      non-empty runs of `[^\s@]`. The pattern's `[^\s@]+` before `\.` may itself hold
      dots, so any dot of the domain with a character on each side will do. */
  predicate MatchesEmailPattern(s: string) {
    exists i, k ::
      0 < i && i + 1 < k < |s| - 1 && s[i] == '@' && s[k] == '.' &&
      AllPlain(s[..i]) && AllPlain(s[i + 1..k]) && AllPlain(s[k + 1..])
  }

  function Count(s: string, c: char): nat {
    if s == [] then 0 else (if s[0] == c then 1 else 0) + Count(s[1..], c)
  }

  predicate NoWhitespace(s: string) {
    forall i :: 0 <= i < |s| ==> !IsWhitespace(s[i])
  }

  /** The domain `d` has a dot with at least one character on each side of it. */
  predicate HasInnerDot(d: string) {
    exists k :: 0 < k < |d| - 1 && d[k] == '.'
  }

  /** The accepted shape, stated directly: no whitespace, exactly one `@`, a non-empty
      local part before it, and a domain after it holding an inner dot. */
  predicate WellShaped(s: string) {
    NoWhitespace(s) && Count(s, '@') == 1 &&
    exists i :: 0 < i < |s| && s[i] == '@' && HasInnerDot(s[i + 1..])
  }

  lemma {:induction false} CountAppend(a: string, b: string, c: char)
    ensures Count(a + b, c) == Count(a, c) + Count(b, c)
  {
    if a == [] {
      assert a + b == b;
    } else {
      assert (a + b)[1..] == a[1..] + b;
      CountAppend(a[1..], b, c);
    }
  }

  lemma {:induction false} CountZero(s: string, c: char)
    ensures Count(s, c) == 0 <==> forall j :: 0 <= j < |s| ==> s[j] != c
  {
    if s != [] {
      CountZero(s[1..], c);
      assert forall j :: 1 <= j < |s| ==> s[j] == s[1..][j - 1];
    }
  }

  /** Splitting `s` around position `i` into the parts before, at and after it. */
  lemma CountAround(s: string, i: nat, c: char)
    requires i < |s|
    ensures Count(s, c) == Count(s[..i], c) + (if s[i] == c then 1 else 0) + Count(s[i + 1..], c)
  {
    assert s == s[..i] + ([s[i]] + s[i + 1..]);
    CountAppend(s[..i], [s[i]] + s[i + 1..], c);
    CountAppend([s[i]], s[i + 1..], c);
  }

  lemma PatternIsWellShaped(s: string)
    requires MatchesEmailPattern(s)
    ensures WellShaped(s)
  {
    var i, k :| 0 < i && i + 1 < k < |s| - 1 && s[i] == '@' && s[k] == '.' &&
      AllPlain(s[..i]) && AllPlain(s[i + 1..k]) && AllPlain(s[k + 1..]);
    var local, mid, top := s[..i], s[i + 1..k], s[k + 1..];
    forall j | 0 <= j < |s| ensures !IsWhitespace(s[j]) {
      if j < i {
        assert s[j] == local[j];
      } else if i < j < k {
        assert s[j] == mid[j - i - 1];
      } else if k < j {
        assert s[j] == top[j - k - 1];
      }
    }
    var rest := s[i + 1..];
    forall j | 0 <= j < |rest| ensures rest[j] != '@' {
      if i + 1 + j < k {
        assert rest[j] == mid[j];
      } else if i + 1 + j > k {
        assert rest[j] == top[j - (k - i)];
      }
    }
    CountZero(local, '@');
    CountZero(rest, '@');
    CountAround(s, i, '@');
    assert rest[k - i - 1] == '.';
    assert HasInnerDot(rest);
  }

  lemma WellShapedMatchesPattern(s: string)
    requires WellShaped(s)
    ensures MatchesEmailPattern(s)
  {
    var i :| 0 < i < |s| && s[i] == '@' && HasInnerDot(s[i + 1..]);
    var d := s[i + 1..];
    var m :| 0 < m < |d| - 1 && d[m] == '.';
    var k := i + 1 + m;
    CountAround(s, i, '@');
    CountZero(s[..i], '@');
    CountZero(d, '@');
    var local, mid, top := s[..i], s[i + 1..k], s[k + 1..];
    assert AllPlain(local) by {
      forall j | 0 <= j < |local| ensures Plain(local[j]) {
        assert local[j] == s[j];
      }
    }
    assert AllPlain(mid) by {
      forall j | 0 <= j < |mid| ensures Plain(mid[j]) {
        assert mid[j] == d[j] == s[i + 1 + j];
      }
    }
    assert AllPlain(top) by {
      forall j | 0 <= j < |top| ensures Plain(top[j]) {
        assert top[j] == d[m + 1 + j] == s[k + 1 + j];
      }
    }
    assert s[i] == '@' && s[k] == '.';
  }

  /** The pattern accepts exactly the well-shaped addresses. */
  lemma EmailPatternShape(s: string)
    ensures MatchesEmailPattern(s) <==> WellShaped(s)
  {
    if MatchesEmailPattern(s) {
      PatternIsWellShaped(s);
    }
    if WellShaped(s) {
      WellShapedMatchesPattern(s);
    }
  }
}
