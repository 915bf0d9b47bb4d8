/**
 The two `format` checks the validator performs itself: the e-mail regular
 expression `^[^\s@]+@[^\s@]+\.[^\s@]+$` and the date regular expression
 `^\d{4}-\d{2}-\d{2}$`. `uri`/`url` go through the URL parser, which is a host
 parameter of the validator.
 */
module Formats {
  import opened Js

  /** Every character is in the class `[^\s@]`. */
  predicate OutsideSpaceAndAt(t: string)
  {
    forall k :: 0 <= k < |t| ==> !IsWhitespace(t[k]) && t[k] != '@'
  }

  /** The e-mail regular expression, read literally: three non-empty runs of
      `[^\s@]` joined by "@" and "." and filling the whole string. */
  ghost predicate MatchesEmailRegex(s: string)
  {
    exists i, j :: 0 < i && i + 1 < j && j + 1 < |s| && s[i] == '@' && s[j] == '.'
                   && OutsideSpaceAndAt(s[..i]) && OutsideSpaceAndAt(s[i + 1..j]) && OutsideSpaceAndAt(s[j + 1..])
  }

  predicate HasInnerDot(t: string)
  {
    exists j :: 0 < j < |t| - 1 && t[j] == '.'
  }

  /** The e-mail check stated per character: no whitespace anywhere, exactly one
      "@" with something before it, and a "." after the "@" that is neither the
      first nor the last character of the part after it. */
  predicate IsEmail(s: string)
  {
    && (forall k :: 0 <= k < |s| ==> !IsWhitespace(s[k]))
    && exists i :: 0 < i < |s| && s[i] == '@'
                   && (forall k :: 0 <= k < |s| && s[k] == '@' ==> k == i)
                   && HasInnerDot(s[i + 1..])
  }

  /** Every character of `s[lo..hi]` is in `[^\s@]` when no character there is
      whitespace or "@". */
  lemma SliceOutsideSpaceAndAt(s: string, lo: int, hi: int)
    requires 0 <= lo <= hi <= |s|
    requires forall k :: lo <= k < hi ==> !IsWhitespace(s[k]) && s[k] != '@'
    ensures OutsideSpaceAndAt(s[lo..hi])
  {
    var t := s[lo..hi];
    forall k | 0 <= k < |t|
      ensures !IsWhitespace(t[k]) && t[k] != '@'
    {
      assert t[k] == s[lo + k];
    }
  }

  lemma EmailToRegex(s: string)
    requires IsEmail(s)
    ensures MatchesEmailRegex(s)
  {
    var i :| 0 < i < |s| && s[i] == '@' && (forall k :: 0 <= k < |s| && s[k] == '@' ==> k == i)
             && HasInnerDot(s[i + 1..]);
    var t := s[i + 1..];
    var j' :| 0 < j' < |t| - 1 && t[j'] == '.';
    var j := i + 1 + j';
    assert s[j] == t[j'];
    SliceOutsideSpaceAndAt(s, 0, i);
    SliceOutsideSpaceAndAt(s, i + 1, j);
    SliceOutsideSpaceAndAt(s, j + 1, |s|);
    assert s[..i] == s[0..i] && s[j + 1..] == s[j + 1..|s|];
  }

  /** Outside the "@" and the "." that split it, a match has no whitespace and no "@". */
  lemma RegexRuns(s: string, i: int, j: int)
    requires 0 < i && i + 1 < j && j + 1 < |s| && s[i] == '@' && s[j] == '.'
    requires OutsideSpaceAndAt(s[..i]) && OutsideSpaceAndAt(s[i + 1..j]) && OutsideSpaceAndAt(s[j + 1..])
    ensures forall k :: 0 <= k < |s| && k != i && k != j ==> !IsWhitespace(s[k]) && s[k] != '@'
  {
    var a, b, c := s[..i], s[i + 1..j], s[j + 1..];
    forall k | 0 <= k < |s| && k != i && k != j
      ensures !IsWhitespace(s[k]) && s[k] != '@'
    {
      if k < i {
        assert s[k] == a[k];
      } else if k < j {
        assert s[k] == b[k - i - 1];
      } else {
        assert s[k] == c[k - j - 1];
      }
    }
  }

  lemma RegexToEmail(s: string)
    requires MatchesEmailRegex(s)
    ensures IsEmail(s)
  {
    var i, j :| 0 < i && i + 1 < j && j + 1 < |s| && s[i] == '@' && s[j] == '.'
                && OutsideSpaceAndAt(s[..i]) && OutsideSpaceAndAt(s[i + 1..j]) && OutsideSpaceAndAt(s[j + 1..]);
    RegexRuns(s, i, j);
    assert !IsWhitespace('@') && !IsWhitespace('.');
    forall k | 0 <= k < |s|
      ensures !IsWhitespace(s[k])
    {
    }
    forall k | 0 <= k < |s| && s[k] == '@'
      ensures k == i
    {
    }
    var t := s[i + 1..];
    assert t[j - i - 1] == '.';
    assert HasInnerDot(t);
  }

  /** The per-character reading of the e-mail check is exactly the regular expression. */
  lemma EmailMatchesRegex(s: string)
    ensures IsEmail(s) <==> MatchesEmailRegex(s)
  {
    if IsEmail(s) {
      EmailToRegex(s);
    }
    if MatchesEmailRegex(s) {
      RegexToEmail(s);
    }
  }

  /** The date regular expression: four ASCII digits, "-", two digits, "-", two
      digits, and nothing else. Only the shape is checked, never the calendar. */
  predicate IsDate(s: string)
  {
    && |s| == 10
    && s[4] == '-' && s[7] == '-'
    && forall k :: 0 <= k < 10 && k != 4 && k != 7 ==> IsDigit(s[k])
  }

  /** The shape is all that is checked: a day that no calendar has passes, and
      a date without its leading zeros fails. */
  lemma DateIsSyntaxOnly()
    ensures IsDate("2023-02-31") && IsDate("0000-99-99")
    ensures !IsDate("2023-2-03") && !IsDate("2023/02/03") && !IsDate("2023-02-031")
  {
    var a := "2023-02-31";
    assert forall k :: 0 <= k < 10 && k != 4 && k != 7 ==> IsDigit(a[k]);
    var b := "0000-99-99";
    assert forall k :: 0 <= k < 10 && k != 4 && k != 7 ==> IsDigit(b[k]);
  }

  /** Three non-empty runs without whitespace or "@", joined as `a@b.c`, always
      make an e-mail address. */
  lemma EmailOfParts(a: string, b: string, c: string)
    requires |a| > 0 && |b| > 0 && |c| > 0
    requires OutsideSpaceAndAt(a) && OutsideSpaceAndAt(b) && OutsideSpaceAndAt(c)
    ensures IsEmail(a + "@" + b + "." + c)
  {
    var s := a + "@" + b + "." + c;
    var i, j := |a|, |a| + 1 + |b|;
    assert s[..i] == a && s[i + 1..j] == b && s[j + 1..] == c;
    assert s[i] == '@' && s[j] == '.';
    RegexToEmail(s);
  }

  lemma EmailAccepted()
    ensures IsEmail("a@b.com") && IsEmail("ana@x.com")
  {
    EmailOfParts("a", "b", "com");
    assert "a" + "@" + "b" + "." + "com" == "a@b.com";
    EmailOfParts("ana", "x", "com");
    assert "ana" + "@" + "x" + "." + "com" == "ana@x.com";
  }

  /** A string without "@" is never an e-mail address. */
  lemma NoAtNoEmail(s: string)
    requires forall k :: 0 <= k < |s| ==> s[k] != '@'
    ensures !IsEmail(s)
  {
  }

  lemma EmailRejected()
    ensures !IsEmail("not-an-email") && !IsEmail("a@b") && !IsEmail("a@@b.com") && !IsEmail("a b@c.com")
  {
    var g := "not-an-email";
    assert forall k :: 0 <= k < |g| ==> g[k] != '@';
    NoAtNoEmail(g);
    var h := "a@b";
    assert h[2..] == "b";
    var d := "a@@b.com";
    assert d[1] == '@' && d[2] == '@';
    var w := "a b@c.com";
    assert IsWhitespace(w[1]);
  }
}
