/** Byte buffers, C strings and the decimal conversions of the C and C++ libraries.
    A byte is a `char`; nothing below depends on a bound of 256. */
module Bytes {

  datatype Option<+T> = None | Some(value: T)

  type Data = seq<char>

  const LF: char := '\n'
  const CR: char := '\r'
  const NUL: char := '\0'

  // The first position of `c` at or after `i`, and |data| where the libraries answer end() or npos.
  function Find(data: Data, c: char, i: nat): (e: nat)
    requires i <= |data|
    ensures i <= e <= |data|
    ensures forall j :: i <= j < e ==> data[j] != c
    ensures e < |data| ==> data[e] == c
    decreases |data| - i
  {
    if i == |data| || data[i] == c then i else Find(data, c, i + 1)
  }

  predicate NulFree(s: Data) {
    NUL !in s
  }

  // What a function that takes a `char *` sees of a buffer.
  function CString(s: Data): (t: Data)
    ensures t <= s && NulFree(t)
    ensures NulFree(s) <==> t == s
  {
    var n := Find(s, NUL, 0);
    s[..n]
  }

  lemma CStringStops(a: Data, b: Data)
    requires NulFree(a)
    ensures CString(a + [NUL] + b) == a && CString(a) == a
  {
    FindIs(a + [NUL] + b, NUL, 0, |a|);
    assert (a + [NUL] + b)[..|a|] == a;
  }

  // Find is determined by what its answer means.
  lemma FindIs(data: Data, c: char, i: nat, e: nat)
    requires i <= e <= |data|
    requires forall j :: i <= j < e ==> data[j] != c
    requires e < |data| ==> data[e] == c
    ensures Find(data, c, i) == e
  {
    var f := Find(data, c, i);
    assert !(f < e) && !(e < f);
  }

  predicate IsDigit(c: char) {
    '0' <= c <= '9'
  }

  predicate AllDigits(s: Data) {
    forall i :: 0 <= i < |s| ==> IsDigit(s[i])
  }

  predicate IsSpace(c: char) {
    c == ' ' || ('\t' <= c <= '\r')
  }

  // std::to_string of an unsigned value.
  function Decimal(n: nat): (s: Data)
    ensures |s| > 0 && AllDigits(s)
    ensures s[0] == '0' ==> n == 0 && s == "0"
  {
    var d := [('0' as int + n % 10) as char];
    if n < 10 then d else Decimal(n / 10) + d
  }

  // The number an all-digit string writes.
  function DigitsValue(s: Data): nat
    requires AllDigits(s)
  {
    if s == [] then 0 else DigitsValue(s[..|s| - 1]) * 10 + (s[|s| - 1] as int - '0' as int)
  }

  lemma {:induction false} DecimalValue(n: nat)
    ensures DigitsValue(Decimal(n)) == n
  {
    var s := Decimal(n);
    if n >= 10 {
      assert s[..|s| - 1] == Decimal(n / 10);
      DecimalValue(n / 10);
    } else {
      assert s[..|s| - 1] == [];
    }
  }

  function SkipSpaces(s: Data): (t: Data) {
    if s != [] && IsSpace(s[0]) then SkipSpaces(s[1..]) else s
  }

  function LeadingDigits(s: Data): (t: Data)
    ensures AllDigits(t) && t <= s
    ensures AllDigits(s) ==> t == s
  {
    if s != [] && IsDigit(s[0]) then [s[0]] + LeadingDigits(s[1..]) else []
  }

  // The common front of stoul and atoi: white space, one optional sign, then digits.
  datatype Numeral = Numeral(negative: bool, digits: Data)

  function Scan(s: Data): (n: Numeral)
    ensures AllDigits(n.digits)
    ensures s != [] && AllDigits(s) ==> n == Numeral(false, s)
  {
    var t := SkipSpaces(s);
    if t != [] && t[0] in "+-" then Numeral(t[0] == '-', LeadingDigits(t[1..])) else Numeral(false, LeadingDigits(t))
  }

  const SIZE_LIMIT: nat := 0x1_0000_0000_0000_0000

  // std::stoul on a 64-bit size_t. None stands for its two exceptions, no digits and out of range.
  function Stoul(s: Data): Option<nat> {
    var n := Scan(s);
    var v := DigitsValue(n.digits);
    if n.digits == [] || v >= SIZE_LIMIT then None
    else if n.negative && v != 0 then Some(SIZE_LIMIT - v)
    else Some(v)
  }

  // std::atoi, on values an int can hold.
  function Atoi(s: Data): int {
    var n := Scan(s);
    var v: int := DigitsValue(n.digits);
    if n.negative then -v else v
  }

  // The text to_string writes is read back by both readers.
  lemma DecimalRoundTrip(n: nat)
    ensures Atoi(Decimal(n)) == n
    ensures n < SIZE_LIMIT ==> Stoul(Decimal(n)) == Some(n)
  {
    DecimalValue(n);
  }

  // Every digit string without leading zeros is written for some number.
  lemma {:induction false} DecimalIsOnto(s: Data)
    requires s != [] && AllDigits(s) && (s[0] == '0' ==> |s| == 1)
    ensures Decimal(DigitsValue(s)) == s
    ensures s[0] != '0' ==> DigitsValue(s) > 0
    decreases |s|
  {
    var init, c := s[..|s| - 1], s[|s| - 1];
    var d := c as int - '0' as int;
    assert s == init + [c] && ('0' as int + d) as char == c;
    if init != [] {
      DecimalIsOnto(init);
      assert DigitsValue(s) / 10 == DigitsValue(init) && DigitsValue(s) % 10 == d;
    }
  }

  // ---- any text as a number

  const BLANKS: Data := [' ', '\t', '\n', '\U{0B}', '\U{0C}', '\r']

  lemma SpacesAre(c: char)
    ensures IsSpace(c) <==> c in BLANKS
  {
    assert c in BLANKS <==> c == ' ' || c == '\t' || c == '\n' || c == '\U{0B}' || c == '\U{0C}' || c == '\r';
  }

  lemma {:induction false} BlanksAreSkipped(ws: Data, t: Data)
    requires forall c :: c in ws ==> c in BLANKS
    requires t != [] ==> t[0] !in BLANKS
    ensures SkipSpaces(ws + t) == t
    decreases |ws|
  {
    if ws == [] {
      assert ws + t == t;
      if t != [] {
        SpacesAre(t[0]);
      }
    } else {
      assert (ws + t)[1..] == ws[1..] + t;
      SpacesAre(ws[0]);
      BlanksAreSkipped(ws[1..], t);
    }
  }

  lemma {:induction false} DigitsAreTaken(ds: Data, tail: Data)
    requires AllDigits(ds) && (tail != [] ==> !('0' <= tail[0] <= '9'))
    ensures LeadingDigits(ds + tail) == ds
    decreases |ds|
  {
    if ds == [] {
      assert ds + tail == tail;
    } else {
      assert (ds + tail)[1..] == ds[1..] + tail;
      DigitsAreTaken(ds[1..], tail);
    }
  }

  lemma {:induction false} LeadingZero(ds: Data)
    requires AllDigits(ds)
    ensures AllDigits("0" + ds) && DigitsValue("0" + ds) == DigitsValue(ds)
    decreases |ds|
  {
    var n := |ds| - 1;
    if ds == [] {
      assert "0" + ds == "0" && "0"[..0] == [];
    } else {
      LeadingZero(ds[..n]);
      assert ("0" + ds)[..n + 1] == "0" + ds[..n];
    }
  }

  lemma ScanIs(ws: Data, sign: Data, ds: Data, tail: Data)
    requires (forall c :: c in ws ==> c in BLANKS) && (sign == "" || sign == "+" || sign == "-") && AllDigits(ds)
    requires tail != [] ==> !('0' <= tail[0] <= '9')
    requires tail != [] && sign == "" && ds == [] ==> tail[0] !in BLANKS && tail[0] != '+' && tail[0] != '-'
    ensures Scan(ws + (sign + (ds + tail))) == Numeral(sign == "-", ds)
  {
    hide SkipSpaces, LeadingDigits, DigitsValue;
    var t := sign + (ds + tail);
    assert ds != [] ==> IsDigit(ds[0]);
    BlanksAreSkipped(ws, t);
    DigitsAreTaken(ds, tail);
    if sign == "" {
      assert t == ds + tail;
    } else {
      assert t[1..] == ds + tail;
    }
  }

  // Blanks, a sign or none, digits, and then anything: what both readers make of it.
  lemma NumberIsRead(ws: Data, sign: Data, ds: Data, tail: Data)
    requires (forall c :: c in ws ==> c in BLANKS) && (sign == "" || sign == "+" || sign == "-") && AllDigits(ds)
    requires tail != [] ==> !('0' <= tail[0] <= '9')
    requires tail != [] && sign == "" && ds == [] ==> tail[0] !in BLANKS && tail[0] != '+' && tail[0] != '-'
    ensures var s, v := ws + (sign + (ds + tail)), DigitsValue(ds);
            && (if sign == "-" then Atoi(s) + v == 0 else Atoi(s) == v)
            && Stoul(s) == if ds == [] || v >= 0x1_0000_0000_0000_0000 then None
                           else if sign == "-" && v != 0 then Some(0x1_0000_0000_0000_0000 - v)
                           else Some(v)
  {
    hide Scan, DigitsValue;
    ScanIs(ws, sign, ds, tail);
  }
}
