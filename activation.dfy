/** backend/src/utils/createActivationToken.ts: the activation code
    arithmetic and the shape of the signed payload, together with what the
    handlers that verify such a token read back from it.

    A token is modelled by the payload it carries: `jwt.sign` and
    `jwt.verify` are an oracle that hands the payload back unchanged while
    the token is valid. */
module Activation {
  import opened Common

  /** The credentials object signed under `user`. registerUser passes
      `{name, email, password}`; the account handlers pass
      `{name, email, picture, bio}`. */
  datatype TokenUser = TokenUser(
    name: Option<string>,
    email: string,
    password: Option<string>,
    picture: Option<FieldValue>,
    bio: Option<string>)

  /** The signed payload `{user, activationCode}`. */
  datatype Payload = Payload(user: TokenUser, activationCode: nat)

  /** What createActivationToken returns: the token and the code. */
  datatype ActivationToken = ActivationToken(token: Payload, activationCode: nat)

  const LowestCode: nat := 200000
  const HighestCode: nat := 1099999

  /** `Math.floor(100000 + r * (999999 - 100000 + 1) + 100000)` for the
      value `r` of `Math.random()`. */
  function ActivationCode(r: real): (code: nat)
    requires 0.0 <= r < 1.0
    ensures LowestCode <= code <= HighestCode
  {
    (100000.0 + r * (999999 - 100000 + 1) as real + 100000.0).Floor
  }

  /** createActivationToken: sign `{user, activationCode}` and return the
      same code that went into the payload. */
  function CreateActivationToken(user: TokenUser, r: real): (t: ActivationToken)
    requires 0.0 <= r < 1.0
    ensures t.token.user == user
    ensures t.token.activationCode == t.activationCode
    ensures LowestCode <= t.activationCode <= HighestCode
  {
    var code := ActivationCode(r);
    ActivationToken(Payload(user, code), code)
  }

  /** A seven-digit code comes out exactly when `r >= 8/9`. */
  lemma SevenDigitCodes(r: real)
    requires 0.0 <= r < 1.0
    ensures ActivationCode(r) >= 1000000 <==> r >= 8.0 / 9.0
    ensures |DecimalString(ActivationCode(r))| == if r >= 8.0 / 9.0 then 7 else 6
  {
    var code := ActivationCode(r);
    var x := 100000.0 + r * 900000.0 + 100000.0;
    assert code as real <= x < code as real + 1.0;
    if r >= 8.0 / 9.0 {
      assert x >= 1000000.0;
      assert Pow10(6) == 1000000 && Pow10(7) == 10000000;
      DecimalLength(code, 7);
    } else {
      assert x < 1000000.0;
      assert Pow10(5) == 100000 && Pow10(6) == 1000000;
      DecimalLength(code, 6);
    }
  }

  /** Codes of both lengths occur. */
  lemma BothLengthsOccur()
    ensures |DecimalString(ActivationCode(0.0))| == 6
    ensures |DecimalString(ActivationCode(0.95))| == 7
  {
    SevenDigitCodes(0.0);
    SevenDigitCodes(0.95);
  }

  predicate IsDigit(c: char) {
    '0' <= c <= '9'
  }

  predicate AllDigits(s: string) {
    forall i :: 0 <= i < |s| ==> IsDigit(s[i])
  }

  function DigitChar(d: nat): (c: char)
    requires d < 10
    ensures IsDigit(c)
  {
    (48 + d) as char
  }

  /** The decimal text of a number, as template interpolation
      `${activationCode}` writes it into the mail subject. */
  function DecimalString(n: nat): (s: string)
    ensures |s| >= 1 && AllDigits(s)
    decreases n
  {
    if n < 10 then [DigitChar(n)] else DecimalString(n / 10) + [DigitChar(n % 10)]
  }

  /** The number a string of decimal digits denotes. */
  function DigitsValue(s: string): nat
    requires AllDigits(s)
  {
    if s == [] then 0 else DigitsValue(s[..|s| - 1]) * 10 + (s[|s| - 1] as int - 48)
  }

  function Pow10(k: nat): nat {
    if k == 0 then 1 else 10 * Pow10(k - 1)
  }

  /** A number between `10^(k-1)` and `10^k` is written with `k` digits. */
  lemma {:induction false} DecimalLength(n: nat, k: nat)
    requires k >= 1 && Pow10(k - 1) <= n < Pow10(k)
    ensures |DecimalString(n)| == k
    decreases k
  {
    if k > 1 {
      assert n >= 10 by {
        Pow10Positive(k - 2);
      }
      DecimalLength(n / 10, k - 1);
    }
  }

  lemma {:induction false} Pow10Positive(k: nat)
    ensures Pow10(k) >= 1
  {
    if k > 0 {
      Pow10Positive(k - 1);
    }
  }

  /** Reading back the decimal text of a number gives the number. */
  lemma {:induction false} DecimalRoundTrip(n: nat)
    ensures DigitsValue(DecimalString(n)) == n
    decreases n
  {
    if n >= 10 {
      var s := DecimalString(n);
      assert s[..|s| - 1] == DecimalString(n / 10);
      DecimalRoundTrip(n / 10);
    }
  }

  /** The activation code as it arrives in a request body: missing, a JSON
      number, or a string. */
  datatype SuppliedCode = CodeMissing | CodeNumber(n: int) | CodeText(s: string)

  /** `payloadCode == supplied` under JavaScript's loose equality, the
      payload's code being a number: `undefined` equals no number, a number
      compares by value, and a string is converted to a number first (the
      empty string converts to 0). */
  function LooselyEqual(code: nat, supplied: SuppliedCode): (eq: bool)
    ensures supplied.CodeMissing? ==> !eq
    ensures supplied.CodeNumber? ==> (eq <==> supplied.n == code)
    ensures supplied == CodeText(DecimalString(code)) ==> eq
    ensures supplied == CodeText("0" + DecimalString(code)) ==> eq
    ensures supplied.CodeText? && supplied.s != "" ==>
              (eq <==> AllDigits(supplied.s) && DigitsValue(supplied.s) == code)
  {
    DecimalRoundTrip(code);
    LeadingZeroValue(DecimalString(code));
    match supplied
    case CodeMissing => false
    case CodeNumber(n) => n == code
    case CodeText(s) => if s == "" then code == 0 else AllDigits(s) && DigitsValue(s) == code
  }

  /** A leading zero does not change the number a digit string denotes. */
  lemma {:induction false} LeadingZeroValue(s: string)
    requires AllDigits(s)
    ensures AllDigits("0" + s) && DigitsValue("0" + s) == DigitsValue(s)
    decreases |s|
  {
    var t := "0" + s;
    assert AllDigits(t) by {
      forall i | 0 <= i < |t|
        ensures IsDigit(t[i])
      {
        if i > 0 {
          assert t[i] == s[i - 1];
        }
      }
    }
    if s != [] {
      assert t[..|t| - 1] == "0" + s[..|s| - 1];
      LeadingZeroValue(s[..|s| - 1]);
    }
  }

  /** The code as mailed, typed back as text or as a number, passes the
      check; and a supplied value passes it for at most one code. */
  lemma MailedCodeAccepted(code: nat, other: nat, supplied: SuppliedCode)
    ensures LooselyEqual(code, CodeText(DecimalString(code)))
    ensures LooselyEqual(code, CodeNumber(code))
    ensures LooselyEqual(code, supplied) && LooselyEqual(other, supplied) ==> code == other
  {
    DecimalRoundTrip(code);
  }

  /** A top-level property of a verified payload as JavaScript reads it. */
  datatype JsValue = Undefined | Number(n: nat) | Object

  /** `payload[key]`: the payload's only properties are the nested `user`
      object and the numeric `activationCode`. */
  function TopLevel(p: Payload, key: string): (v: JsValue)
    ensures v.Undefined? <==> key != "user" && key != "activationCode"
  {
    if key == "user" then Object
    else if key == "activationCode" then Number(p.activationCode)
    else Undefined
  }

  /** Assigning a value to a String path of a document: `undefined` unsets
      the path (`Some(None)`), a number is cast to its decimal text, and a
      plain object fails the cast (`None`). */
  function AssignToStringPath(v: JsValue): (r: Option<Option<string>>)
    ensures r.None? <==> v.Object?
    ensures r == Some(None) <==> v.Undefined?
  {
    match v
    case Undefined => Some(None)
    case Number(n) => Some(Some(DecimalString(n)))
    case Object => None
  }

  /** The credentials are nested under `user`: reading `email` or
      `password` at the top level of the payload yields `undefined`, and
      assigning that to a String path unsets it. */
  lemma CredentialsAreNested(p: Payload)
    ensures TopLevel(p, "email") == Undefined && TopLevel(p, "password") == Undefined
    ensures AssignToStringPath(TopLevel(p, "email")) == Some(None)
    ensures AssignToStringPath(TopLevel(p, "password")) == Some(None)
    ensures TopLevel(p, "user") == Object
  {
    assert "email" != "user" && "email" != "activationCode";
    assert "password" != "user" && "password" != "activationCode";
  }
}
