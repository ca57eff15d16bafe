/** The one-pass IPv4 text parser accepts exactly the IPv4address grammar of section 3.2.2 of RFC 3986,
    and undoes the canonical printer. */
module Ipv4 {
  import opened Values

  newtype u16 = x: int | 0 <= x < 0x1_0000

  type Octets = s: seq<byte> | |s| == 4 witness [0, 0, 0, 0]

  const DOT: byte := 46
  const ZERO: byte := 48

  predicate IsDigit(b: byte) {
    48 <= b <= 57
  }

  function Digit(d: nat): byte
    requires d < 10
  {
    (48 + d) as byte
  }

  // ----- the grammar -----

  /** dec-octet: its five alternatives, in the order the RFC lists them. */
  predicate DecOctet(s: seq<byte>) {
    || (|s| == 1 && IsDigit(s[0]))
    || (|s| == 2 && 49 <= s[0] <= 57 && IsDigit(s[1]))
    || (|s| == 3 && s[0] == 49 && IsDigit(s[1]) && IsDigit(s[2]))
    || (|s| == 3 && s[0] == 50 && 48 <= s[1] <= 52 && IsDigit(s[2]))
    || (|s| == 3 && s[0] == 50 && s[1] == 53 && 48 <= s[2] <= 53)
  }

  /** n dec-octets separated by dots. */
  ghost predicate DottedOctets(s: seq<byte>, n: nat) {
    if n == 0 then false
    else if n == 1 then DecOctet(s)
    else exists i | 0 <= i < |s| :: s[i] == DOT && DecOctet(s[..i]) && DottedOctets(s[i + 1..], n - 1)
  }

  ghost predicate Ipv4Address(s: seq<byte>) {
    DottedOctets(s, 4)
  }

  // ----- the printer -----

  function PrintOctet(v: byte): (s: seq<byte>) {
    var n := v as nat;
    if n < 10 then [Digit(n)]
    else if n < 100 then [Digit(n / 10), Digit(n % 10)]
    else [Digit(n / 100), Digit(n / 10 % 10), Digit(n % 10)]
  }

  function PrintDotted(a: seq<byte>): seq<byte>
    requires a != []
  {
    if |a| == 1 then PrintOctet(a[0]) else PrintOctet(a[0]) + [DOT] + PrintDotted(a[1..])
  }

  function Print(a: Octets): seq<byte> {
    PrintDotted(a)
  }

  function DigitValue(b: byte): (d: nat)
    requires IsDigit(b)
    ensures d < 10 && Digit(d) == b
  {
    (b - 48) as nat
  }

  ghost predicate AllDigits(s: seq<byte>) {
    forall i | 0 <= i < |s| :: IsDigit(s[i])
  }

  /** The number a digit string denotes. */
  function Number(s: seq<byte>): nat
    requires AllDigits(s)
  {
    if s == [] then 0 else 10 * Number(s[..|s| - 1]) + DigitValue(s[|s| - 1])
  }

  lemma ShortNumbers(s: seq<byte>)
    requires AllDigits(s)
    ensures |s| == 1 ==> Number(s) == s[0] as int - 48
    ensures |s| == 2 ==> Number(s) == 10 * (s[0] as int - 48) + (s[1] as int - 48)
    ensures |s| == 3 ==> Number(s) == 100 * (s[0] as int - 48) + 10 * (s[1] as int - 48) + (s[2] as int - 48)
  {
    if 0 < |s| <= 3 {
      ShortNumbers(s[..|s| - 1]);
    }
  }

  lemma DigitsOf(d0: nat, d1: nat, d2: nat)
    requires d0 < 10 && d1 < 10 && d2 < 10
    ensures var n := 100 * d0 + 10 * d1 + d2;
            n / 100 == d0 && n / 10 % 10 == d1 && n % 10 == d2
  {
  }

  /** A digit run is a dec-octet exactly when it has 1 to 3 digits, no leading zero and fits a byte. */
  lemma DecOctetIffCanonical(s: seq<byte>)
    requires AllDigits(s)
    ensures DecOctet(s) <==> 0 < |s| <= 3 && (|s| > 1 ==> s[0] != ZERO) && Number(s) < 256
  {
    ShortNumbers(s);
  }

  /** A dec-octet is the canonical print of its number. */
  lemma DecOctetIsPrinted(s: seq<byte>)
    requires DecOctet(s)
    ensures AllDigits(s) && Number(s) < 256 && PrintOctet(Number(s) as byte) == s
  {
    assert AllDigits(s);
    ShortNumbers(s);
    if |s| == 3 {
      DigitsOf(DigitValue(s[0]), DigitValue(s[1]), DigitValue(s[2]));
    } else if |s| == 2 {
      DigitsOf(0, DigitValue(s[0]), DigitValue(s[1]));
    }
  }

  lemma PrintedOctet(v: byte)
    ensures AllDigits(PrintOctet(v)) && DecOctet(PrintOctet(v)) && Number(PrintOctet(v)) == v as nat
  {
    var s, n := PrintOctet(v), v as nat;
    ShortNumbers(s);
    DecimalDigits(n);
    assert forall d | 0 <= d < 10 :: DigitValue(Digit(d)) == d;
  }

  lemma DecimalDigits(n: nat)
    requires n < 256
    ensures n == 100 * (n / 100) + 10 * (n / 10 % 10) + n % 10 && n / 100 < 3
    ensures n < 100 ==> n / 10 == n / 10 % 10
  {
  }

  lemma PrefixNumber(s: seq<byte>, n: nat)
    requires AllDigits(s) && n <= |s|
    ensures Number(s[..n]) <= Number(s)
  {
    if n < |s| {
      PrefixNumber(s[..|s| - 1], n);
      assert s[..|s| - 1][..n] == s[..n];
    } else {
      assert s[..n] == s;
    }
  }

  /** Reading `n` digits of octet + [DOT] + more stays within the octet, and stops exactly at its
      end when the next byte is not a digit. */
  lemma DigitsWithinOctet(octet: seq<byte>, more: seq<byte>, n: nat)
    requires AllDigits(octet) && (more == [] || more[0] == DOT)
    requires n <= |octet + more| && forall j | 0 <= j < n :: IsDigit((octet + more)[j])
    ensures n <= |octet| && (octet + more)[..n] == octet[..n]
    ensures n == |octet + more| ==> n == |octet| && more == []
    ensures n < |octet + more| && !IsDigit((octet + more)[n]) ==> n == |octet| && more != []
  {
    assert more != [] ==> (octet + more)[|octet|] == DOT;
  }

  /** What follows the first octet of a printed list. */
  function AfterFirst(a: seq<byte>): seq<byte>
    requires a != []
  {
    if |a| == 1 then [] else [DOT] + PrintDotted(a[1..])
  }

  lemma PrintSplits(a: seq<byte>)
    requires a != []
    ensures PrintDotted(a) == PrintOctet(a[0]) + AfterFirst(a)
  {
  }

  // ----- the grammar is the printer's range -----

  lemma OctetOf(s: seq<byte>) returns (v: byte)
    requires DecOctet(s)
    ensures PrintOctet(v) == s
  {
    DecOctetIsPrinted(s);
    v := Number(s) as byte;
  }

  lemma {:induction false} DottedIsPrinted(s: seq<byte>, n: nat) returns (a: seq<byte>)
    requires n > 0 && DottedOctets(s, n)
    ensures |a| == n && PrintDotted(a) == s
  {
    if n == 1 {
      var v := OctetOf(s);
      a := [v];
    } else {
      var i := FirstDot(s, n);
      var rest := DottedIsPrinted(s[i + 1..], n - 1);
      var v := OctetOf(s[..i]);
      a := PrependOctet(v, rest);
    }
  }

  lemma FirstDot(s: seq<byte>, n: nat) returns (i: nat)
    requires n > 1 && DottedOctets(s, n)
    ensures i < |s| && DecOctet(s[..i]) && DottedOctets(s[i + 1..], n - 1)
    ensures s == s[..i] + [DOT] + s[i + 1..]
  {
    i :| 0 <= i < |s| && s[i] == DOT && DecOctet(s[..i]) && DottedOctets(s[i + 1..], n - 1);
  }

  function PrependOctet(v: byte, rest: seq<byte>): (a: seq<byte>)
    requires rest != []
    ensures a == [v] + rest && PrintDotted(a) == PrintOctet(v) + [DOT] + PrintDotted(rest)
  {
    assert ([v] + rest)[1..] == rest;
    [v] + rest
  }

  lemma {:induction false} PrintedIsDotted(a: seq<byte>)
    requires a != []
    ensures DottedOctets(PrintDotted(a), |a|)
  {
    PrintedOctet(a[0]);
    if |a| > 1 {
      PrintedIsDotted(a[1..]);
      DotsJoin(PrintOctet(a[0]), PrintDotted(a[1..]), |a|);
    }
  }

  lemma DotsJoin(octet: seq<byte>, rest: seq<byte>, n: nat)
    requires n > 1 && DecOctet(octet) && DottedOctets(rest, n - 1)
    ensures DottedOctets(octet + [DOT] + rest, n)
  {
    var s, i := octet + [DOT] + rest, |octet|;
    assert s[i] == DOT && s[..i] == octet && s[i + 1..] == rest;
  }

  // ----- the address a text denotes -----

  /** The address that prints as these bytes, if there is one. */
  ghost function AddressOf(bytes: seq<byte>): (r: Option<Octets>)
    ensures r.Some? ==> Print(r.value) == bytes
  {
    if exists a: Octets :: Print(a) == bytes then
      var a: Octets :| Print(a) == bytes;
      Some(a)
    else None
  }

  lemma {:induction false} PrintIsInjective(a: seq<byte>, b: seq<byte>)
    requires a != [] && |a| == |b| && PrintDotted(a) == PrintDotted(b)
    ensures a == b
  {
    PrintSplits(a);
    PrintSplits(b);
    PrintedOctet(a[0]);
    PrintedOctet(b[0]);
    SameFirstOctet(PrintOctet(a[0]), AfterFirst(a), PrintOctet(b[0]), AfterFirst(b));
    PrintedOctetIsInjective(a[0], b[0]);
    if |a| > 1 {
      SameTail(PrintDotted(a[1..]), PrintDotted(b[1..]));
      PrintIsInjective(a[1..], b[1..]);
      assert a == [a[0]] + a[1..] && b == [b[0]] + b[1..];
    }
  }

  lemma PrintedOctetIsInjective(v: byte, w: byte)
    requires PrintOctet(v) == PrintOctet(w)
    ensures v == w
  {
    PrintedOctet(v);
    PrintedOctet(w);
  }

  lemma SameTail(s: seq<byte>, t: seq<byte>)
    requires [DOT] + s == [DOT] + t
    ensures s == t
  {
    assert s == ([DOT] + s)[1..] && t == ([DOT] + t)[1..];
  }

  lemma SameFirstOctet(x: seq<byte>, moreX: seq<byte>, y: seq<byte>, moreY: seq<byte>)
    requires AllDigits(x) && AllDigits(y) && x + moreX == y + moreY
    requires (moreX == [] || moreX[0] == DOT) && (moreY == [] || moreY[0] == DOT)
    ensures x == y && moreX == moreY
  {
    assert forall j | 0 <= j < |x| :: (x + moreX)[j] == x[j];
    assert forall j | 0 <= j < |y| :: (y + moreY)[j] == y[j];
    DigitsWithinOctet(x, moreX, |y|);
    DigitsWithinOctet(y, moreY, |x|);
    assert x == (x + moreX)[..|x|] && y == (y + moreY)[..|y|];
    assert moreX == (x + moreX)[|x|..] && moreY == (y + moreY)[|y|..];
  }

  /** What AddressOf means: parsing and printing undo each other on every address and every text, and
      the texts that denote an address are exactly those of the grammar. */
  lemma AddressOfInvertsPrint(bytes: seq<byte>)
    ensures forall a: Octets :: Print(a) == bytes <==> AddressOf(bytes) == Some(a)
    ensures AddressOf(bytes).Some? <==> Ipv4Address(bytes)
  {
    forall a: Octets | Print(a) == bytes
      ensures AddressOf(bytes) == Some(a)
    {
      PrintIsInjective(AddressOf(bytes).value, a);
    }
    if AddressOf(bytes).Some? {
      PrintedIsDotted(AddressOf(bytes).value);
    } else if Ipv4Address(bytes) {
      GrammarDenotes(bytes);
    }
  }

  lemma OctetInFront(s: seq<byte>, rest: seq<byte>, text: seq<byte>) returns (a: seq<byte>)
    requires DecOctet(s) && rest != [] && PrintDotted(rest) == text
    ensures AllDigits(s) && Number(s) < 256 && a == [Number(s) as byte] + rest
    ensures PrintDotted(a) == s + [DOT] + text
  {
    DecOctetIsPrinted(s);
    a := PrependOctet(Number(s) as byte, rest);
  }

  lemma PrintedDenotes(a: Octets, text: seq<byte>)
    requires PrintDotted(a) == text
    ensures AddressOf(text) == Some(a)
  {
    assert Print(a) == text;
    AddressOfInvertsPrint(text);
  }

  /** Four dec-octets between dots denote their numbers, in the order of the text. */
  lemma TextGivesOctets(s0: seq<byte>, s1: seq<byte>, s2: seq<byte>, s3: seq<byte>) returns (text: seq<byte>, a: Octets)
    requires DecOctet(s0) && DecOctet(s1) && DecOctet(s2) && DecOctet(s3)
    ensures text == s0 + [DOT] + (s1 + [DOT] + (s2 + [DOT] + s3))
    ensures AddressOf(text) == Some(a)
    ensures AllDigits(s0) && a[0] as int == Number(s0)
    ensures AllDigits(s1) && a[1] as int == Number(s1)
    ensures AllDigits(s2) && a[2] as int == Number(s2)
    ensures AllDigits(s3) && a[3] as int == Number(s3)
  {
    DecOctetIsPrinted(s3);
    var t2 := s2 + [DOT] + s3;
    var t1 := s1 + [DOT] + t2;
    text := s0 + [DOT] + t1;
    var a2 := OctetInFront(s2, [Number(s3) as byte], s3);
    var a1 := OctetInFront(s1, a2, t2);
    a := OctetInFront(s0, a1, t1);
    PrintedDenotes(a, text);
  }

  lemma GrammarDenotes(bytes: seq<byte>)
    requires Ipv4Address(bytes)
    ensures AddressOf(bytes).Some?
  {
    var a := DottedIsPrinted(bytes, 4);
    assert Print(a) == bytes;
  }

  // ----- what a scan position implies about the whole text -----

  /** If the bytes denote an address, it has the octets read so far and prints its others from start. */
  ghost predicate Tracks(bytes: seq<byte>, read: seq<byte>, start: nat) {
    start <= |bytes| && |read| <= 3 &&
    match AddressOf(bytes) {
      case None => true
      case Some(a) => a[..|read|] == read && bytes[start..] == PrintDotted(a[|read|..])
    }
  }

  /** Where the scan is consistent with some address: the digit run so far is the start of an octet,
      and the byte after it, or the end, comes where one can. */
  ghost predicate Fits(bytes: seq<byte>, read: seq<byte>, start: nat, i: nat)
    requires start <= i <= |bytes| && AllDigits(bytes[start..i])
  {
    && i - start <= 3
    && Number(bytes[start..i]) <= 255
    && (i - start > 1 ==> bytes[start] != ZERO)
    && (i < |bytes| ==> IsDigit(bytes[i]) || (bytes[i] == DOT && start < i && |read| < 3))
    && (i == |bytes| ==> start < i && |read| == 3)
  }

  lemma AddressFits(bytes: seq<byte>, read: seq<byte>, start: nat, i: nat)
    requires Tracks(bytes, read, start) && start <= i <= |bytes| && AllDigits(bytes[start..i])
    requires AddressOf(bytes).Some?
    ensures Fits(bytes, read, start, i)
  {
    var rest := AddressOf(bytes).value[|read|..];
    var octet, more, n := PrintOctet(rest[0]), AfterFirst(rest), i - start;
    PrintSplits(rest);
    PrintedOctet(rest[0]);
    assert bytes[start..] == octet + more && bytes[start..][..n] == bytes[start..i];
    RunFits(bytes[start..], octet, more, n);
    if |rest| == 1 {
      assert more == [];
    }
  }

  /** The first n digits of octet + more, where more is empty or starts with a dot. */
  lemma RunFits(text: seq<byte>, octet: seq<byte>, more: seq<byte>, n: nat)
    requires text == octet + more && (more == [] || more[0] == DOT) && n <= |text|
    requires AllDigits(octet) && DecOctet(octet) && AllDigits(text[..n])
    ensures n <= 3 && Number(text[..n]) <= 255
    ensures n > 1 ==> text[0] != ZERO
    ensures n < |text| ==> IsDigit(text[n]) || (text[n] == DOT && 0 < n && more != [])
    ensures n == |text| ==> 0 < n && more == []
  {
    assert forall j | 0 <= j < n :: text[j] == text[..n][j];
    DigitsWithinOctet(octet, more, n);
    PrefixNumber(octet, n);
    DecOctetIffCanonical(octet);
    if n < |octet| {
      assert text[n] == octet[n];
    } else if n < |text| {
      assert text[n] == more[0];
    }
    if n > 1 {
      assert text[0] == octet[0];
    }
  }

  lemma NoAddress(bytes: seq<byte>, read: seq<byte>, start: nat, i: nat)
    requires Tracks(bytes, read, start) && start <= i <= |bytes| && AllDigits(bytes[start..i])
    requires !Fits(bytes, read, start, i)
    ensures AddressOf(bytes) == None
  {
    if AddressOf(bytes).Some? {
      AddressFits(bytes, read, start, i);
    }
  }

  /** A dot after a digit run moves on to the next octet. */
  lemma NextOctet(bytes: seq<byte>, read: seq<byte>, start: nat, i: nat, v: byte)
    requires Tracks(bytes, read, start) && start <= i < |bytes| && AllDigits(bytes[start..i])
    requires bytes[i] == DOT && |read| < 3 && Number(bytes[start..i]) == v as nat
    ensures Tracks(bytes, read + [v], i + 1)
  {
    if AddressOf(bytes).Some? {
      OctetRead(bytes, read, start, i, v, AddressOf(bytes).value);
    }
  }

  lemma OctetRead(bytes: seq<byte>, read: seq<byte>, start: nat, i: nat, v: byte, a: Octets)
    requires Tracks(bytes, read, start) && start <= i <= |bytes| && AllDigits(bytes[start..i])
    requires Number(bytes[start..i]) == v as nat && (i < |bytes| ==> bytes[i] == DOT)
    requires AddressOf(bytes) == Some(a)
    ensures a[..|read| + 1] == read + [v]
    ensures i < |bytes| && |read| < 3 ==> bytes[i + 1..] == PrintDotted(a[|read| + 1..])
  {
    var rest, n := a[|read|..], i - start;
    SubSlices(bytes, start, i);
    FirstOctetRead(bytes[start..], rest, n, v);
    assert a[..|read| + 1] == a[..|read|] + [rest[0]];
    assert rest[1..] == a[|read| + 1..];
  }

  lemma SubSlices(bytes: seq<byte>, start: nat, i: nat)
    requires start <= i <= |bytes|
    ensures bytes[start..][..i - start] == bytes[start..i]
    ensures i < |bytes| ==> bytes[start..][i - start] == bytes[i] && bytes[start..][i - start + 1..] == bytes[i + 1..]
  {
  }

  /** The digits up to the dot or the end are the first octet of the printed list. */
  lemma FirstOctetRead(text: seq<byte>, rest: seq<byte>, n: nat, v: byte)
    requires rest != [] && text == PrintDotted(rest) && n <= |text|
    requires AllDigits(text[..n]) && Number(text[..n]) == v as nat && (n < |text| ==> text[n] == DOT)
    ensures rest[0] == v
    ensures n < |text| && |rest| > 1 ==> text[n + 1..] == PrintDotted(rest[1..])
  {
    PrintSplits(rest);
    PrintedOctet(rest[0]);
    OctetEnds(text, PrintOctet(rest[0]), AfterFirst(rest), n);
  }

  lemma OctetEnds(text: seq<byte>, octet: seq<byte>, more: seq<byte>, n: nat)
    requires text == octet + more && n <= |text| && (more == [] || more[0] == DOT)
    requires AllDigits(octet) && AllDigits(text[..n]) && (n < |text| ==> text[n] == DOT)
    ensures text[..n] == octet
    ensures n < |text| ==> text[n + 1..] == more[1..]
  {
    assert forall j | 0 <= j < n :: text[j] == text[..n][j];
    DigitsWithinOctet(octet, more, n);
  }

  // ----- what was read is what prints -----

  /** The octets already read, each followed by its dot. */
  function Dotted(read: seq<byte>): seq<byte> {
    if read == [] then [] else PrintOctet(read[0]) + [DOT] + Dotted(read[1..])
  }

  lemma DottedGrows(read: seq<byte>, v: byte)
    ensures Dotted(read + [v]) == Dotted(read) + PrintOctet(v) + [DOT]
    ensures PrintDotted(read + [v]) == Dotted(read) + PrintOctet(v)
  {
    if read == [] {
      assert read + [v] == [v];
    } else {
      var rest := read[1..];
      DottedGrows(rest, v);
      assert read + [v] == [read[0]] + (rest + [v]);
      DottedCons(read[0], rest + [v]);
      Associates(PrintOctet(read[0]) + [DOT], Dotted(rest), PrintOctet(v));
      Associates(PrintOctet(read[0]) + [DOT], Dotted(rest) + PrintOctet(v), [DOT]);
    }
  }

  lemma DottedCons(u: byte, rest: seq<byte>)
    requires rest != []
    ensures Dotted([u] + rest) == PrintOctet(u) + [DOT] + Dotted(rest)
    ensures PrintDotted([u] + rest) == PrintOctet(u) + [DOT] + PrintDotted(rest)
  {
    assert ([u] + rest)[1..] == rest;
  }

  lemma Associates(a: seq<byte>, b: seq<byte>, c: seq<byte>)
    ensures a + (b + c) == (a + b) + c
  {
  }

  /** The loop invariant: the octets read, and the digit run in progress with its value. */
  ghost predicate Reading(bytes: seq<byte>, i: nat, read: seq<byte>, digits: nat, value: nat) {
    && digits <= i <= |bytes| && digits <= 3
    && Tracks(bytes, read, i - digits)
    && bytes[..i - digits] == Dotted(read)
    && AllDigits(bytes[i - digits..i]) && value == Number(bytes[i - digits..i]) <= 255
    && (digits > 1 ==> bytes[i - digits] != ZERO)
  }

  lemma Slices(bytes: seq<byte>, start: nat, i: nat)
    requires start <= i < |bytes|
    ensures bytes[start..i + 1] == bytes[start..i] + [bytes[i]]
    ensures bytes[start..i + 1][..i - start] == bytes[start..i]
    ensures bytes[..i + 1] == bytes[..start] + (bytes[start..i] + [bytes[i]])
    ensures bytes[i + 1..i + 1] == []
  {
  }

  lemma ReadDot(bytes: seq<byte>, i: nat, read: seq<byte>, digits: nat, value: byte)
    requires Reading(bytes, i, read, digits, value as nat) && i < |bytes| && bytes[i] == DOT
    requires digits > 0 && |read| < 3
    ensures Reading(bytes, i + 1, read + [value], 0, 0)
  {
    var start := i - digits;
    NextOctet(bytes, read, start, i, value);
    RunIsPrinted(bytes[start..i], value);
    DottedGrows(read, value);
    Slices(bytes, start, i);
  }

  lemma ReadDigit(bytes: seq<byte>, i: nat, read: seq<byte>, digits: nat, value: nat)
    requires Reading(bytes, i, read, digits, value) && i < |bytes| && IsDigit(bytes[i])
    ensures AllDigits(bytes[i - digits..i + 1])
    ensures Number(bytes[i - digits..i + 1]) == value * 10 + DigitValue(bytes[i])
    ensures digits == 1 ==> (value == 0 <==> bytes[i - digits] == ZERO)
  {
    Slices(bytes, i - digits, i);
    ShortNumbers(bytes[i - digits..i]);
  }

  lemma DigitRead(bytes: seq<byte>, i: nat, read: seq<byte>, digits: nat, value: nat)
    requires Reading(bytes, i, read, digits, value) && i < |bytes| && IsDigit(bytes[i])
    requires digits < 3 && !(digits == 1 && value == 0) && value * 10 + DigitValue(bytes[i]) <= 255
    ensures Reading(bytes, i + 1, read, digits + 1, value * 10 + DigitValue(bytes[i]))
  {
    ReadDigit(bytes, i, read, digits, value);
  }

  lemma ReadAll(bytes: seq<byte>, read: seq<byte>, digits: nat, value: byte)
    requires Reading(bytes, |bytes|, read, digits, value as nat) && digits > 0 && |read| == 3
    ensures AddressOf(bytes) == Some(read + [value])
  {
    var start := |bytes| - digits;
    assert bytes[start..|bytes|] == bytes[start..];
    RunIsPrinted(bytes[start..], value);
    DottedGrows(read, value);
    assert bytes == bytes[..start] + bytes[start..];
    assert Print(read + [value]) == bytes;
    PrintIsInjective(AddressOf(bytes).value, read + [value]);
  }

  lemma RunIsPrinted(run: seq<byte>, value: byte)
    requires AllDigits(run) && 0 < |run| <= 3 && (|run| > 1 ==> run[0] != ZERO) && Number(run) == value as nat
    ensures PrintOctet(value) == run
  {
    DecOctetIffCanonical(run);
    DecOctetIsPrinted(run);
  }

  /** The loop's ways out on a byte, each of which no address can lead to. */
  lemma ByteRejected(bytes: seq<byte>, i: nat, read: seq<byte>, digits: nat, value: nat)
    requires Reading(bytes, i, read, digits, value) && i < |bytes|
    requires
      var b := bytes[i];
      if b == DOT then digits == 0 || |read| == 3
      else !IsDigit(b) || (digits == 1 && value == 0) || digits == 3 || value * 10 + DigitValue(b) > 255
    ensures AddressOf(bytes) == None
  {
    var start := i - digits;
    if IsDigit(bytes[i]) {
      ReadDigit(bytes, i, read, digits, value);
      NoAddress(bytes, read, start, i + 1);
    } else {
      NoAddress(bytes, read, start, i);
    }
  }

  lemma EndRejected(bytes: seq<byte>, read: seq<byte>, digits: nat, value: nat)
    requires Reading(bytes, |bytes|, read, digits, value) && (digits == 0 || |read| != 3)
    ensures AddressOf(bytes) == None
  {
    NoAddress(bytes, read, |bytes| - digits, |bytes|);
  }

  // ----- the parser -----

  /** The parser's state between bytes. */
  datatype Scan = Scan(read: seq<byte>, digits: nat, value: nat)

  /** One byte; None rejects. */
  function Feed(s: Scan, b: byte): (r: Option<Scan>)
    requires s.value <= 255
    ensures r.Some? ==> r.value.value <= 255
  {
    if b == DOT then
      if s.digits == 0 || |s.read| == 3 then None else Some(Scan(s.read + [s.value as byte], 0, 0))
    else if !IsDigit(b) || (s.digits == 1 && s.value == 0) || s.digits == 3 then None
    else if s.value * 10 + DigitValue(b) > 255 then None
    else Some(s.(digits := s.digits + 1, value := s.value * 10 + DigitValue(b)))
  }

  function FeedFrom(s: Scan, bytes: seq<byte>, i: nat): Option<Octets>
    requires s.value <= 255 && i <= |bytes|
    decreases |bytes| - i
  {
    if i == |bytes| then
      if |s.read| != 3 || s.digits == 0 then None else Some(s.read + [s.value as byte])
    else
      match Feed(s, bytes[i])
      case None => None
      case Some(s') => FeedFrom(s', bytes, i + 1)
  }

  lemma FeedRejects(s: Scan, bytes: seq<byte>, i: nat)
    requires Reading(bytes, i, s.read, s.digits, s.value) && i < |bytes| && Feed(s, bytes[i]).None?
    ensures AddressOf(bytes) == None
  {
    ByteRejected(bytes, i, s.read, s.digits, s.value);
  }

  lemma FeedReads(s: Scan, bytes: seq<byte>, i: nat, s': Scan)
    requires Reading(bytes, i, s.read, s.digits, s.value) && i < |bytes| && Feed(s, bytes[i]) == Some(s')
    ensures Reading(bytes, i + 1, s'.read, s'.digits, s'.value)
  {
    if bytes[i] == DOT {
      ReadDot(bytes, i, s.read, s.digits, s.value as byte);
    } else {
      DigitRead(bytes, i, s.read, s.digits, s.value);
    }
  }

  /** A claim about scans that every byte carries on, and that decides the outcome when the scan stops. */
  ghost predicate Leads(claim: (Scan, nat) -> bool, bytes: seq<byte>, goal: Option<Octets>, s: Scan, i: nat) {
    && s.value <= 255 && i <= |bytes|
    && if i == |bytes| then FeedFrom(s, bytes, i) == goal
       else match Feed(s, bytes[i]) {
         case None => goal == None
         case Some(s') => claim(s', i + 1)
       }
  }

  lemma {:induction false} FeedFromReaches(claim: (Scan, nat) -> bool, bytes: seq<byte>, goal: Option<Octets>, s: Scan, i: nat)
    requires claim(s, i) && (forall t, j | claim(t, j) :: Leads(claim, bytes, goal, t, j))
    ensures s.value <= 255 && i <= |bytes| && FeedFrom(s, bytes, i) == goal
    decreases |bytes| - i
  {
    assert Leads(claim, bytes, goal, s, i);
    if i < |bytes| && Feed(s, bytes[i]).Some? {
      FeedFromReaches(claim, bytes, goal, Feed(s, bytes[i]).value, i + 1);
    }
  }

  /** Scanning the rest from any position the scan can be in gives the address of the whole text. */
  lemma FeedFromFindsAddress(s: Scan, bytes: seq<byte>, i: nat)
    requires Reading(bytes, i, s.read, s.digits, s.value)
    ensures FeedFrom(s, bytes, i) == AddressOf(bytes)
  {
    var claim := (t: Scan, j: nat) => Reading(bytes, j, t.read, t.digits, t.value);
    forall t, j | claim(t, j)
      ensures Leads(claim, bytes, AddressOf(bytes), t, j)
    {
      ReadingLeads(claim, bytes, t, j);
    }
    FeedFromReaches(claim, bytes, AddressOf(bytes), s, i);
  }

  lemma ReadingLeads(claim: (Scan, nat) -> bool, bytes: seq<byte>, s: Scan, i: nat)
    requires Reading(bytes, i, s.read, s.digits, s.value)
    requires forall t: Scan, j: nat :: Reading(bytes, j, t.read, t.digits, t.value) ==> claim(t, j)
    ensures Leads(claim, bytes, AddressOf(bytes), s, i)
  {
    if i == |bytes| {
      FeedEnds(s, bytes);
    } else if Feed(s, bytes[i]).None? {
      FeedRejects(s, bytes, i);
    } else {
      FeedReads(s, bytes, i, Feed(s, bytes[i]).value);
    }
  }

  lemma FeedEnds(s: Scan, bytes: seq<byte>)
    requires Reading(bytes, |bytes|, s.read, s.digits, s.value)
    ensures FeedFrom(s, bytes, |bytes|) == AddressOf(bytes)
  {
    if |s.read| != 3 || s.digits == 0 {
      EndRejected(bytes, s.read, s.digits, s.value);
    } else {
      ReadAll(bytes, s.read, s.digits, s.value as byte);
    }
  }

  /** Returns exactly the address the bytes denote. The u16 accumulator never overflows: its type is
      checked at every step. */
  method ParseIpv4(bytes: seq<byte>) returns (r: Option<Octets>)
    ensures r == AddressOf(bytes)
  {
    var octets: seq<byte> := [0, 0, 0, 0];
    var octetIndex: nat, digits: nat := 0, 0;
    var value: u16 := 0;
    FeedFromFindsAddress(Scan([], 0, 0), bytes, 0);
    assert octets[..0] == [];
    for i := 0 to |bytes|
      invariant |octets| == 4 && octetIndex <= 3 && value <= 255
      invariant FeedFrom(Scan(octets[..octetIndex], digits, value as nat), bytes, i) == AddressOf(bytes)
    {
      var b := bytes[i];
      if b == DOT {
        if digits == 0 || octetIndex == 3 {
          return None;
        }
        ghost var read := octets[..octetIndex];
        octets := octets[octetIndex := value as byte];
        octetIndex := octetIndex + 1;
        assert octets[..octetIndex] == read + [value as byte];
        value := 0;
        digits := 0;
        continue;
      }
      if !IsDigit(b) {
        return None;
      }
      if digits == 1 && value == 0 {
        return None;
      }
      digits := digits + 1;
      if digits > 3 {
        return None;
      }
      value := value * 10 + DigitValue(b) as u16;
      if value > 255 {
        return None;
      }
    }
    if octetIndex != 3 || digits == 0 {
      return None;
    }
    ghost var read := octets[..octetIndex];
    octets := octets[octetIndex := value as byte];
    assert octets == read + [value as byte];
    r := Some(octets);
  }
}
