/**
 * The waitlist form's e-mail check (src/components/WaitlistForm.js, validateEmail).
 *
 * The source tests the regular expression  ^[^\s@]+@[^\s@]+\.[^\s@]+$ .
 * RegexMatch below is that expression's meaning, written as the existence of the
 * two positions where the literal '@' and the literal '.' match.  ValidateEmail is
 * an executable restatement (one '@', no white space, a non-empty local part and a
 * dot strictly inside the domain); ValidateEmailMatchesRegex proves the two agree
 * on every string.
 */
module EmailValidation {

  /** JavaScript's \s: the WhiteSpace and LineTerminator code points of ECMAScript. */
  predicate IsSpace(c: char) {
    || c == '\t' || c == '\n' || c == '\U{000B}' || c == '\U{000C}' || c == '\r'
    || c == ' ' || c == '\U{00A0}' || c == '\U{1680}'
    || ('\U{2000}' <= c <= '\U{200A}')
    || c == '\U{2028}' || c == '\U{2029}' || c == '\U{202F}' || c == '\U{205F}'
    || c == '\U{3000}' || c == '\U{FEFF}'
  }

  /** The character class [^\s@]. */
  predicate Plain(c: char) {
    !IsSpace(c) && c != '@'
  }

  predicate AllPlain(s: string) {
    forall k | 0 <= k < |s| :: Plain(s[k])
  }

  predicate NoSpace(s: string) {
    forall k | 0 <= k < |s| :: !IsSpace(s[k])
  }

  /** Number of occurrences of c in s. */
  function CountOf(s: string, c: char): (n: nat)
    ensures n <= |s|
    ensures n == 0 <==> c !in s
  {
    if s == [] then 0 else (if s[0] == c then 1 else 0) + CountOf(s[1..], c)
  }

  /** Position of the first c in s, or |s| when there is none. */
  function FirstIndex(s: string, c: char): (k: nat)
    ensures k <= |s|
    ensures c !in s[..k]
    ensures k < |s| <==> c in s
    ensures k < |s| ==> s[k] == c
  {
    if s == [] then 0
    else if s[0] == c then 0
    else
      var k := 1 + FirstIndex(s[1..], c);
      assert s[..k] == [s[0]] + s[1..][..k - 1];
      k
  }

  /** Some '.' stands at an index i with 1 <= i <= |d| - 2. */
  predicate InteriorDot(d: string) {
    exists j | 1 <= j < |d| - 1 :: d[j] == '.'
  }

  /** validateEmail, stated as: no white space, exactly one '@', a non-empty part
      before it, and a dot strictly inside the part after it. */
  predicate ValidateEmail(email: string) {
    && NoSpace(email)
    && CountOf(email, '@') == 1
    && var at := FirstIndex(email, '@');
       0 < at && InteriorDot(email[at + 1..])
  }

  /** The regular expression matches with its '@' at index at and its '\.' at index dot. */
  predicate PatternAt(s: string, at: nat, dot: nat)
    requires 0 < at && at + 1 < dot && dot + 1 < |s|
  {
    && s[at] == '@' && s[dot] == '.'
    && AllPlain(s[..at]) && AllPlain(s[at + 1..dot]) && AllPlain(s[dot + 1..])
  }

  /** The meaning of  ^[^\s@]+@[^\s@]+\.[^\s@]+$ : three non-empty runs of [^\s@],
      separated by '@' and by '.'. */
  ghost predicate RegexMatch(s: string) {
    exists at: nat, dot: nat | 0 < at && at + 1 < dot && dot + 1 < |s| :: PatternAt(s, at, dot)
  }

  lemma {:induction false} CountOfAppend(a: string, b: string, c: char)
    ensures CountOf(a + b, c) == CountOf(a, c) + CountOf(b, c)
  {
    if a != [] {
      assert (a + b)[1..] == a[1..] + b;
      CountOfAppend(a[1..], b, c);
    } else {
      assert a + b == b;
    }
  }

  /** Counting around one position. */
  lemma CountOfAround(s: string, k: nat, c: char)
    requires k < |s|
    ensures CountOf(s, c) == CountOf(s[..k], c) + (if s[k] == c then 1 else 0) + CountOf(s[k + 1..], c)
  {
    assert s == s[..k] + s[k..];
    CountOfAppend(s[..k], s[k..], c);
    assert s[k..] == [s[k]] + s[k + 1..];
    CountOfAppend([s[k]], s[k + 1..], c);
  }

  /** The executable check and the regular expression accept the same strings. */
  lemma ValidateEmailMatchesRegex(s: string)
    ensures ValidateEmail(s) <==> RegexMatch(s)
  {
    if ValidateEmail(s) {
      var at := FirstIndex(s, '@');
      var d := s[at + 1..];
      var j :| 1 <= j < |d| - 1 && d[j] == '.';
      var dot := at + 1 + j;
      CountOfAround(s, at, '@');
      assert '@' !in s[at + 1..];
      assert AllPlain(s[..at]) by {
        forall k | 0 <= k < at ensures Plain(s[..at][k]) {
          assert s[..at][k] == s[k];
        }
      }
      var mid, tail := s[at + 1..dot], s[dot + 1..];
      assert AllPlain(mid) by {
        forall k | 0 <= k < |mid| ensures Plain(mid[k]) {
          assert mid[k] == d[k] == s[at + 1 + k];
        }
      }
      assert AllPlain(tail) by {
        forall k | 0 <= k < |tail| ensures Plain(tail[k]) {
          assert tail[k] == d[j + 1 + k] == s[dot + 1 + k];
        }
      }
      assert PatternAt(s, at, dot);
    }
    if RegexMatch(s) {
      var at: nat, dot: nat :| 0 < at && at + 1 < dot && dot + 1 < |s| && PatternAt(s, at, dot);
      assert !IsSpace('@') && !IsSpace('.');
      forall k | 0 <= k < |s| ensures !IsSpace(s[k]) && (k != at ==> s[k] != '@') {
        if k < at {
          assert s[..at][k] == s[k];
        } else if at < k < dot {
          assert s[at + 1..dot][k - at - 1] == s[k];
        } else if dot < k {
          assert s[dot + 1..][k - dot - 1] == s[k];
        }
      }
      assert '@' !in s[..at] by {
        forall k | 0 <= k < at ensures s[..at][k] != '@' { }
      }
      var d := s[at + 1..];
      assert '@' !in d by {
        forall k | 0 <= k < |d| ensures d[k] != '@' {
          assert d[k] == s[at + 1 + k];
        }
      }
      CountOfAround(s, at, '@');
      assert d[dot - at - 1] == '.';
    }
  }

  /** Every accepted string holds exactly one '@' and no white space. */
  lemma AcceptedHasOneAtAndNoSpace(s: string)
    requires RegexMatch(s)
    ensures CountOf(s, '@') == 1 && NoSpace(s)
  {
    ValidateEmailMatchesRegex(s);
  }

  /** A string without '@' is rejected. */
  lemma RejectsWithoutAt(s: string)
    requires '@' !in s
    ensures !ValidateEmail(s) && !RegexMatch(s)
  {
  }

  /** An empty local part is rejected, whatever follows the '@'. */
  lemma RejectsEmptyLocalPart(domain: string)
    ensures !ValidateEmail("@" + domain) && !RegexMatch("@" + domain)
  {
  }

  /** A domain without a dot strictly inside it is rejected, whatever the local part. */
  lemma RejectsDomainWithoutInteriorDot(local: string, domain: string)
    requires !InteriorDot(domain)
    ensures !ValidateEmail(local + "@" + domain) && !RegexMatch(local + "@" + domain)
  {
    var s := local + "@" + domain;
    ValidateEmailMatchesRegex(s);
    CountOfAppend(local + "@", domain, '@');
    CountOfAppend(local, "@", '@');
    if CountOf(local, '@') == 0 {
      assert s[..|local|] == local;
      assert s[|local|] == '@';
      assert s[|local| + 1..] == domain;
    }
  }

  /** The concrete cases: "", "a@b" and "a@b." are rejected, "a@b.c" is accepted. */
  lemma Examples()
    ensures !ValidateEmail("") && !RegexMatch("")
    ensures !ValidateEmail("a@b") && !RegexMatch("a@b")
    ensures !ValidateEmail("a@b.") && !RegexMatch("a@b.")
    ensures ValidateEmail("a@b.c") && RegexMatch("a@b.c")
  {
    RejectsWithoutAt("");
    assert !InteriorDot("b") && !InteriorDot("b.");
    RejectsDomainWithoutInteriorDot("a", "b");
    RejectsDomainWithoutInteriorDot("a", "b.");
    var s := "a@b.c";
    assert s[..1] == "a" && s[2..3] == "b" && s[4..] == "c";
    assert PatternAt(s, 1, 3);
    ValidateEmailMatchesRegex(s);
  }
}
