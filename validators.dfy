/** The two client validators: the e-mail format check and the address
    character check, each a recogniser of the regular expression it
    compiles, proved equal to a direct reading of that expression. */
module Validators {
  import opened Common
  import opened Model

  // ---------------------------------------------------------------------
  // E-mail: ^[A-Za-z0-9+_.-]+@[A-Za-z0-9.-]+\.[A-Za-z]{2,}$

  /** `[A-Za-z0-9+_.-]`: a character of the part before '@'. */
  predicate LocalChar(ch: char)
  {
    IsAsciiLetter(ch) || IsAsciiDigit(ch) || ch == '+' || ch == '_' || ch == '.' || ch == '-'
  }

  /** `[A-Za-z0-9.-]`: a character of the domain before the final '.'. */
  predicate DomainChar(ch: char)
  {
    IsAsciiLetter(ch) || IsAsciiDigit(ch) || ch == '.' || ch == '-'
  }

  /** The expression read directly: some '@' at `i` and some '.' at `j`
      split the whole string into a non-empty local part, a non-empty
      domain, and at least two letters. */
  ghost predicate EmailPattern(s: string)
  {
    exists i, j :: EmailSplit(s, i, j)
  }

  /** The '@' at `i` and the '.' at `j` split `s` as the expression
      requires. */
  predicate EmailSplit(s: string, i: int, j: int)
  {
    && 0 < i && i + 1 < j && j + 3 <= |s|
    && s[i] == '@' && s[j] == '.'
    && (forall k :: 0 <= k < i ==> LocalChar(s[k]))
    && (forall k :: i < k < j ==> DomainChar(s[k]))
    && (forall k :: j < k < |s| ==> IsAsciiLetter(s[k]))
  }

  /** The position of the first `c` in `s`, or -1. */
  function FirstIndexOf(s: string, c: char): (r: int)
    ensures -1 <= r < |s|
    ensures r == -1 ==> forall k :: 0 <= k < |s| ==> s[k] != c
    ensures r >= 0 ==> s[r] == c && forall k :: 0 <= k < r ==> s[k] != c
  {
    if |s| == 0 then -1
    else if s[0] == c then 0
    else
      var r := FirstIndexOf(s[1..], c);
      if r == -1 then -1 else r + 1
  }

  /** The position of the last `c` in `s`, or -1. */
  function LastIndexOf(s: string, c: char): (r: int)
    ensures -1 <= r < |s|
    ensures r == -1 ==> forall k :: 0 <= k < |s| ==> s[k] != c
    ensures r >= 0 ==> s[r] == c && forall k :: r < k < |s| ==> s[k] != c
  {
    if |s| == 0 then -1
    else if s[|s| - 1] == c then |s| - 1
    else LastIndexOf(s[..|s| - 1], c)
  }

  /** The matcher: since neither class admits '@' the split point is the
      only '@', and since the last part is letters it follows the last '.'. */
  predicate IsValidEmail(s: string)
    ensures IsValidEmail(s) ==> 6 <= |s| && '@' in s && LocalChar(s[0]) && IsAsciiLetter(s[|s| - 1])
  {
    var at, dot := FirstIndexOf(s, '@'), LastIndexOf(s, '.');
    && 0 < at && at + 1 < dot && dot + 3 <= |s|
    && (forall k :: 0 <= k < at ==> LocalChar(s[k]))
    && (forall k :: at < k < dot ==> DomainChar(s[k]))
    && (forall k :: dot < k < |s| ==> IsAsciiLetter(s[k]))
  }

  /** The matcher accepts exactly the strings the expression describes. */
  lemma EmailMatchesPattern(s: string)
    ensures IsValidEmail(s) <==> EmailPattern(s)
  {
    if IsValidEmail(s) {
      EmailSplitFound(s);
    }
    if EmailPattern(s) {
      var i, j :| EmailSplit(s, i, j);
      EmailSplitUnique(s, i, j);
    }
  }

  lemma EmailSplitFound(s: string)
    requires IsValidEmail(s)
    ensures EmailPattern(s)
  {
    var at, dot := FirstIndexOf(s, '@'), LastIndexOf(s, '.');
    assert EmailSplit(s, at, dot);
  }

  /** Any split the expression admits is the one the matcher finds. */
  lemma EmailSplitUnique(s: string, i: int, j: int)
    requires EmailSplit(s, i, j)
    ensures FirstIndexOf(s, '@') == i && LastIndexOf(s, '.') == j
  {
    assert !LocalChar('@') && !IsAsciiLetter('.');
  }

  /** An accepted address holds exactly one '@'. */
  lemma EmailHasOneAt(s: string)
    requires IsValidEmail(s)
    ensures exists i :: 0 <= i < |s| && s[i] == '@' && forall k :: 0 <= k < |s| && s[k] == '@' ==> k == i
  {
    var at, dot := FirstIndexOf(s, '@'), LastIndexOf(s, '.');
    assert EmailSplit(s, at, dot);
    OnlyAt(s, at, dot);
  }

  lemma OnlyAt(s: string, i: int, j: int)
    requires EmailSplit(s, i, j)
    ensures forall k :: 0 <= k < |s| && s[k] == '@' ==> k == i
  {
    assert !LocalChar('@') && !DomainChar('@') && !IsAsciiLetter('@');
  }

  // ---------------------------------------------------------------------
  // Address: ^[A-Za-z0-9#.,'\s-]+$

  /** Java's `\s`: space, tab, line feed, vertical tab, form feed and
      carriage return, and nothing else. */
  predicate JavaWhitespace(ch: char)
  {
    ch == ' ' || ch == '\t' || ch == '\n' || ch == '\U{000B}' || ch == '\U{000C}' || ch == '\r'
  }

  predicate AddressChar(ch: char)
  {
    IsAsciiLetter(ch) || IsAsciiDigit(ch) || ch == '#' || ch == '.' || ch == ',' || ch == '\'' ||
    JavaWhitespace(ch) || ch == '-'
  }

  /** The matcher: at least one character, and every character permitted. */
  predicate IsValidAddress(s: string)
    ensures IsValidAddress(s) ==> |s| > 0 && '@' !in s && ';' !in s
  {
    |s| > 0 && forall k :: 0 <= k < |s| ==> AddressChar(s[k])
  }

  /** The expression read directly: `X+` is one `X`, then `X*`. */
  ghost predicate AddressPattern(s: string)
    decreases |s|
  {
    |s| > 0 && AddressChar(s[0]) && (|s| == 1 || AddressPattern(s[1..]))
  }

  lemma {:induction false} AddressMatchesPattern(s: string)
    ensures IsValidAddress(s) <==> AddressPattern(s)
    decreases |s|
  {
    if |s| > 1 {
      AddressMatchesPattern(s[1..]);
      if AddressPattern(s) {
        forall k | 0 <= k < |s| ensures AddressChar(s[k]) {
          if k > 0 {
            assert s[k] == s[1..][k - 1];
          }
        }
      }
    }
  }

  lemma {:induction false} AddressPatternConcat(a: string, b: string)
    requires AddressPattern(a) && AddressPattern(b)
    ensures AddressPattern(a + b)
    decreases |a|
  {
    if |a| > 1 {
      AddressPatternConcat(a[1..], b);
      assert (a + b)[1..] == a[1..] + b;
    } else {
      assert (a + b)[1..] == b;
    }
  }

  /** Two accepted addresses joined are an accepted address. */
  lemma AddressConcat(a: string, b: string)
    requires IsValidAddress(a) && IsValidAddress(b)
    ensures IsValidAddress(a + b)
  {
    AddressMatchesPattern(a);
    AddressMatchesPattern(b);
    AddressPatternConcat(a, b);
    AddressMatchesPattern(a + b);
  }

  /** Neither check accepts the empty string, and a no-break space is not
      whitespace to `\s`. */
  lemma ValidatorsRejectEdges()
    ensures !IsValidEmail("") && !IsValidAddress("")
    ensures !IsValidAddress("Main\U{00A0}Street")
  {
    assert !AddressChar("Main\U{00A0}Street"[4]);
  }

  // ---------------------------------------------------------------------
  // The validators

  /** The implementations of `Validator<Client>`. */
  datatype Validator = EmailValidator | AddressValidator

  /** `validate(client)`: reads one field and never changes the client. A
      bad e-mail raises `InvalidEmailException`; a bad address raises a
      plain `IllegalArgumentException`. */
  function Validate(v: Validator, c: Client): (r: Outcome)
    ensures r.Fail? ==> r.error == (if v.EmailValidator? then InvalidEmail else IllegalArgument)
    ensures v.EmailValidator? && r.Pass? ==> '@' in c.email
    ensures v.AddressValidator? && r.Pass? ==> c.address != ""
  {
    match v
    case EmailValidator => if IsValidEmail(c.email) then Pass else Fail(InvalidEmail)
    case AddressValidator => if IsValidAddress(c.address) then Pass else Fail(IllegalArgument)
  }

  /** Each validator passes exactly when its field matches its expression,
      and depends on no other field. */
  lemma ValidateMeansPattern(v: Validator, c: Client, c': Client)
    ensures v.EmailValidator? ==> (Validate(v, c) == Pass <==> EmailPattern(c.email))
    ensures v.AddressValidator? ==> (Validate(v, c) == Pass <==> AddressPattern(c.address))
    ensures v.EmailValidator? && c'.email == c.email ==> Validate(v, c') == Validate(v, c)
    ensures v.AddressValidator? && c'.address == c.address ==> Validate(v, c') == Validate(v, c)
  {
    EmailMatchesPattern(c.email);
    AddressMatchesPattern(c.address);
  }
}
