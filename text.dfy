/** The pieces of .NET text handling the commands rely on, restricted to ASCII:
    the regular-expression class `\w`, `ToLower`, case-insensitive comparison
    and `int.TryParse` / `byte.TryParse` with the default `NumberStyles.Integer`. */
module DotNetText {
  import opened Primitives

  predicate IsDigit(c: char) { '0' <= c <= '9' }
  predicate IsUpper(c: char) { 'A' <= c <= 'Z' }
  predicate IsLower(c: char) { 'a' <= c <= 'z' }

  /** `\w`: letters, decimal digits and the connector `_` (ASCII only). */
  predicate IsWordChar(c: char) { IsUpper(c) || IsLower(c) || IsDigit(c) || c == '_' }

  /** White space that `NumberStyles.Integer` allows before and after a number:
      U+0009 to U+000D and U+0020. */
  predicate IsNumberWhiteSpace(c: char) { c == ' ' || '\t' <= c <= '\r' }

  function ToLowerChar(c: char): char {
    if IsUpper(c) then (c as int + 32) as char else c
  }

  function ToUpperChar(c: char): char {
    if IsLower(c) then (c as int - 32) as char else c
  }

  function ToLower(s: string): string {
    seq(|s|, i requires 0 <= i < |s| => ToLowerChar(s[i]))
  }

  /** `String.Equals(a, b, StringComparison.*IgnoreCase)`. */
  predicate EqualsIgnoreCase(a: string, b: string) {
    ToLower(a) == ToLower(b)
  }

  /** `a` spells the lower-case literal `lit` with any letters in either case. */
  predicate SpellsIgnoringCase(a: string, lit: string) {
    |a| == |lit| && forall i :: 0 <= i < |a| ==> a[i] == lit[i] || a[i] == ToUpperChar(lit[i])
  }

  predicate HasNoUpper(lit: string) {
    forall i :: 0 <= i < |lit| ==> !IsUpper(lit[i])
  }

  /** Lower-casing `a` gives the lower-case `lit` exactly when `a` is `lit`
      written with any mix of upper- and lower-case letters. */
  lemma ToLowerIsLiteral(a: string, lit: string)
    requires HasNoUpper(lit)
    ensures ToLower(a) == lit <==> SpellsIgnoringCase(a, lit)
  {
    if ToLower(a) == lit {
      forall i | 0 <= i < |a| ensures a[i] == lit[i] || a[i] == ToUpperChar(lit[i]) {
        assert ToLowerChar(a[i]) == lit[i];
      }
    }
    if SpellsIgnoringCase(a, lit) {
      forall i | 0 <= i < |a| ensures ToLower(a)[i] == lit[i] {
        assert !IsUpper(lit[i]);
      }
    }
  }

  predicate AllDigits(s: string) {
    forall i :: 0 <= i < |s| ==> IsDigit(s[i])
  }

  function DigitValue(c: char): nat
    requires IsDigit(c)
  {
    c as int - '0' as int
  }

  /** The decimal value of a string of digits, most significant first. */
  function DigitsValue(ds: string): nat
    requires AllDigits(ds)
  {
    if ds == [] then 0 else DigitsValue(ds[..|ds| - 1]) * 10 + DigitValue(ds[|ds| - 1])
  }

  predicate AllWhiteSpace(s: string) {
    forall i :: 0 <= i < |s| ==> IsNumberWhiteSpace(s[i])
  }

  /** `s` without its leading white space: a suffix of `s` after white space
      only, and not itself starting with white space. */
  function TrimStart(s: string): (r: string)
    ensures |r| <= |s| && r == s[|s| - |r|..]
    ensures AllWhiteSpace(s[..|s| - |r|])
    ensures r != [] ==> !IsNumberWhiteSpace(r[0])
  {
    if |s| > 0 && IsNumberWhiteSpace(s[0]) then TrimStart(s[1..]) else s
  }

  /** `s` without its trailing white space: a prefix of `s` followed by white
      space only, and not itself ending with white space. */
  function TrimEnd(s: string): (r: string)
    ensures |r| <= |s| && r == s[..|r|]
    ensures AllWhiteSpace(s[|r|..])
    ensures r != [] ==> !IsNumberWhiteSpace(r[|r| - 1])
  {
    if |s| > 0 && IsNumberWhiteSpace(s[|s| - 1]) then TrimEnd(s[..|s| - 1]) else s
  }

  /** An optional `+` or `-` and one or more decimal digits, nothing else. */
  function ParseSigned(t: string): Option<int> {
    if |t| >= 2 && t[0] == '-' && AllDigits(t[1..]) then Some(-(DigitsValue(t[1..]) as int))
    else if |t| >= 2 && t[0] == '+' && AllDigits(t[1..]) then Some(DigitsValue(t[1..]))
    else if |t| >= 1 && AllDigits(t) then Some(DigitsValue(t))
    else None
  }

  /** The integer `NumberStyles.Integer` reads from `s`, before any range check. */
  function ParseInteger(s: string): Option<int> {
    ParseSigned(TrimEnd(TrimStart(s)))
  }

  // The grammar of `NumberStyles.Integer`: [white space][sign]digits[white space].

  predicate IsSign(sign: string) {
    sign == "" || sign == "+" || sign == "-"
  }

  function SignedValue(sign: string, ds: string): int
    requires AllDigits(ds)
  {
    if sign == "-" then -(DigitsValue(ds) as int) else DigitsValue(ds)
  }

  /** `s` splits into leading white space, an optional sign, one or more
      digits and trailing white space. */
  ghost predicate IntegerTextParts(s: string, pre: string, sign: string, ds: string, post: string) {
    s == pre + sign + ds + post && AllWhiteSpace(pre) && AllWhiteSpace(post)
    && IsSign(sign) && |ds| > 0 && AllDigits(ds)
  }

  /** `s` is the text of the integer `v` under `NumberStyles.Integer`. */
  ghost predicate ReadsInteger(s: string, v: int) {
    exists pre, sign, ds, post :: IntegerTextParts(s, pre, sign, ds, post) && v == SignedValue(sign, ds)
  }

  /** Leading white space is dropped, up to the first other character. */
  lemma {:induction false} TrimStartWhite(w: string, x: string)
    requires AllWhiteSpace(w)
    requires x != [] && !IsNumberWhiteSpace(x[0])
    ensures TrimStart(w + x) == x
    decreases |w|
  {
    if w != [] {
      assert (w + x)[1..] == w[1..] + x;
      TrimStartWhite(w[1..], x);
    }
  }

  /** Trailing white space is dropped, back to the last other character. */
  lemma {:induction false} TrimEndWhite(x: string, w: string)
    requires AllWhiteSpace(w)
    requires x != [] && !IsNumberWhiteSpace(x[|x| - 1])
    ensures TrimEnd(x + w) == x
    decreases |w|
  {
    if w != [] {
      assert (x + w)[..|x + w| - 1] == x + w[..|w| - 1];
      TrimEndWhite(x, w[..|w| - 1]);
    }
  }

  /** What `ParseSigned` accepts is a sign followed by digits. */
  lemma SignedParts(t: string, v: int) returns (sign: string, ds: string)
    requires ParseSigned(t) == Some(v)
    ensures t == sign + ds && IsSign(sign) && |ds| > 0 && AllDigits(ds) && v == SignedValue(sign, ds)
  {
    if |t| >= 2 && t[0] == '-' && AllDigits(t[1..]) {
      sign, ds := "-", t[1..];
    } else if |t| >= 2 && t[0] == '+' && AllDigits(t[1..]) {
      sign, ds := "+", t[1..];
    } else {
      sign, ds := "", t;
    }
  }

  /** A sign followed by digits is read as its signed value. */
  lemma ParseSignedParts(sign: string, ds: string)
    requires IsSign(sign) && |ds| > 0 && AllDigits(ds)
    ensures ParseSigned(sign + ds) == Some(SignedValue(sign, ds))
  {
    var t := sign + ds;
    if sign != "" {
      assert t[1..] == ds;
    } else {
      assert t == ds;
    }
  }

  // Sequence identities the string proofs below rely on, stated over any
  // element type so that the solver sees no string facts while proving them.

  lemma JoinParts<T>(s: seq<T>, pre: seq<T>, u: seq<T>, t: seq<T>, post: seq<T>, sign: seq<T>, ds: seq<T>)
    requires s == pre + u && u == t + post && t == sign + ds
    ensures s == pre + sign + ds + post
  {
  }

  lemma SplitAt<T>(s: seq<T>, k: nat)
    requires k <= |s|
    ensures s == s[..k] + s[k..]
  {
  }

  lemma ReadsFromParts(s: string, pre: string, u: string, t: string, post: string, sign: string, ds: string)
    requires s == pre + u && u == t + post && AllWhiteSpace(pre) && AllWhiteSpace(post)
    requires t == sign + ds && IsSign(sign) && |ds| > 0 && AllDigits(ds)
    ensures ReadsInteger(s, SignedValue(sign, ds))
  {
    JoinParts(s, pre, u, t, post, sign, ds);
    assert IntegerTextParts(s, pre, sign, ds, post);
  }

  lemma ParseIntegerSound(s: string, v: int)
    requires ParseInteger(s) == Some(v)
    ensures ReadsInteger(s, v)
  {
    var u := TrimStart(s);
    var t := TrimEnd(u);
    SplitAt(s, |s| - |u|);
    SplitAt(u, |t|);
    var sign, ds := SignedParts(t, v);
    ReadsFromParts(s, s[..|s| - |u|], u, t, u[|t|..], sign, ds);
  }

  lemma Regroup<T>(s: seq<T>, pre: seq<T>, sign: seq<T>, ds: seq<T>, post: seq<T>)
    requires s == pre + sign + ds + post && |ds| > 0
    ensures s == pre + ((sign + ds) + post)
    ensures (sign + ds)[0] == if sign == [] then ds[0] else sign[0]
    ensures (sign + ds)[|sign + ds| - 1] == ds[|ds| - 1]
  {
  }

  lemma ParseIntegerComplete(s: string, pre: string, sign: string, ds: string, post: string)
    requires IntegerTextParts(s, pre, sign, ds, post)
    ensures ParseInteger(s) == Some(SignedValue(sign, ds))
  {
    Regroup(s, pre, sign, ds, post);
    TrimStartWhite(pre, (sign + ds) + post);
    TrimEndWhite(sign + ds, post);
    ParseSignedParts(sign, ds);
  }

  /** The parser succeeds with `v` exactly when the text is `v` written as
      optional white space, an optional `+` or `-`, one or more decimal digits
      and optional white space. */
  lemma ParseIntegerGrammar(s: string, v: int)
    ensures ParseInteger(s) == Some(v) <==> ReadsInteger(s, v)
  {
    if ParseInteger(s) == Some(v) {
      ParseIntegerSound(s, v);
    }
    if ReadsInteger(s, v) {
      var pre, sign, ds, post :| IntegerTextParts(s, pre, sign, ds, post) && v == SignedValue(sign, ds);
      ParseIntegerComplete(s, pre, sign, ds, post);
    }
  }

  /** `ParseInteger` reads exactly the integers the grammar describes. */
  lemma ParseIntegerReads(s: string)
    ensures forall v :: ParseInteger(s) == Some(v) <==> ReadsInteger(s, v)
  {
    forall v ensures ParseInteger(s) == Some(v) <==> ReadsInteger(s, v) {
      ParseIntegerGrammar(s, v);
    }
  }

  /** `int.TryParse(s, out v)`: `Some(v)` on success. It succeeds exactly when
      the text reads as an integer in the 32-bit range. */
  function TryParseInt32(s: string): (r: Option<int>)
    ensures r.Some? ==> IsInt32(r.value) && ReadsInteger(s, r.value)
    ensures r.None? ==> forall v :: ReadsInteger(s, v) ==> !IsInt32(v)
  {
    ParseIntegerReads(s);
    match ParseInteger(s)
    case Some(v) => if IsInt32(v) then Some(v) else None
    case None => None
  }

  /** `byte.TryParse(s, out b)`: `Some(b)` on success. It succeeds exactly when
      the text reads as an integer in 0..255. */
  function TryParseByte(s: string): (r: Option<byte>)
    ensures r.Some? ==> ReadsInteger(s, r.value as int)
    ensures r.None? ==> forall v :: ReadsInteger(s, v) ==> !(0 <= v < 0x100)
  {
    ParseIntegerReads(s);
    match ParseInteger(s)
    case Some(v) => if 0 <= v < 0x100 then Some(v as byte) else None
    case None => None
  }

  // Rendering integers, the inverse of parsing.

  function DigitChar(d: nat): (c: char)
    requires d < 10
    ensures IsDigit(c) && DigitValue(c) == d
  {
    ('0' as int + d) as char
  }

  function NatToDigits(n: nat): (ds: string)
    ensures |ds| > 0 && AllDigits(ds)
  {
    if n < 10 then [DigitChar(n)] else NatToDigits(n / 10) + [DigitChar(n % 10)]
  }

  /** The decimal text of `n`, with a leading `-` when negative. */
  function IntToString(n: int): (s: string)
    ensures |s| > 0
  {
    if n < 0 then "-" + NatToDigits(-n) else NatToDigits(n)
  }

  lemma {:induction false} NatToDigitsValue(n: nat)
    ensures DigitsValue(NatToDigits(n)) == n
  {
    if n >= 10 {
      var ds := NatToDigits(n);
      assert ds[..|ds| - 1] == NatToDigits(n / 10);
      NatToDigitsValue(n / 10);
    }
  }

  lemma IntToStringHasNoWhiteSpace(n: int)
    ensures forall i :: 0 <= i < |IntToString(n)| ==> !IsNumberWhiteSpace(IntToString(n)[i]) && IntToString(n)[i] != '\n'
  {
  }

  /** Parsing reads back exactly the integer that was rendered. */
  lemma ParseIntegerRoundTrip(n: int)
    ensures ParseInteger(IntToString(n)) == Some(n)
  {
    var s := IntToString(n);
    if n < 0 {
      NatToDigitsValue(-n);
      assert s == "" + "-" + NatToDigits(-n) + "";
      ParseIntegerComplete(s, "", "-", NatToDigits(-n), "");
    } else {
      NatToDigitsValue(n);
      assert s == "" + "" + NatToDigits(n) + "";
      ParseIntegerComplete(s, "", "", NatToDigits(n), "");
    }
  }

  lemma TryParseInt32RoundTrip(n: int)
    requires IsInt32(n)
    ensures TryParseInt32(IntToString(n)) == Some(n)
  {
    ParseIntegerRoundTrip(n);
  }

  lemma TryParseByteRoundTrip(b: byte)
    ensures TryParseByte(IntToString(b as int)) == Some(b)
  {
    ParseIntegerRoundTrip(b as int);
  }
}
