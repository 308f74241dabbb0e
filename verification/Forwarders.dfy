/** Forwarder strings: "module.symbol" or "module.#ordinal". */
module Forwarders {
  import opened Bytes
  import opened ImageViews
  import opened PeExports
  import opened ModuleRegistry

  const MODULE_CAPACITY: nat := 128
  const DOT: uint8 := 0x2e
  const HASH: uint8 := 0x23
  const DLL: seq<uint8> := [0x2e, 0x64, 0x6c, 0x6c]   // ".dll"

  datatype Wanted = ByName(symbol: CString) | ByOrdinal(ordinal: uint32)

  /** A symbol of a module, as asked for. */
  datatype Request = Request(moduleName: CString, wanted: Wanted)

  function LastDot(s: seq<uint8>): (r: Option<nat>)
    ensures r.Some? ==> r.value < |s| && s[r.value] == DOT && forall k :: r.value < k < |s| ==> s[k] != DOT
    ensures r.None? ==> forall k :: 0 <= k < |s| ==> s[k] != DOT
  {
    if s == [] then None
    else if s[|s| - 1] == DOT then Some(|s| - 1)
    else LastDot(s[..|s| - 1])
  }

  // strtoul in base ten

  predicate IsSpace(c: uint8) {
    c == 0x20 || 0x09 <= c <= 0x0d
  }

  predicate IsDigit(c: uint8) {
    0x30 <= c <= 0x39
  }

  function SkipSpaces(s: seq<uint8>): seq<uint8> {
    if s != [] && IsSpace(s[0]) then SkipSpaces(s[1..]) else s
  }

  predicate AllDigits(s: seq<uint8>) {
    forall k :: 0 <= k < |s| ==> IsDigit(s[k])
  }

  function Digits(s: seq<uint8>): nat
    requires AllDigits(s)
  {
    if s == [] then 0 else 10 * Digits(s[..|s| - 1]) + (s[|s| - 1] - 0x30)
  }

  /** The value of a text that is one whole number; a minus sign negates modulo 2^64. */
  function StrToUl(s: seq<uint8>): Option<uint64> {
    var text := SkipSpaces(s);
    var signed := text != [] && (text[0] == 0x2b || text[0] == 0x2d);
    var digits := if signed then text[1..] else text;
    if digits == [] || !AllDigits(digits) || Digits(digits) >= TWO_64 then None
    else if signed && text[0] == 0x2d then Some((TWO_64 - Digits(digits)) % TWO_64)
    else Some(Digits(digits))
  }

  predicate EndsInDll(name: seq<uint8>) {
    |name| >= 4 && Folded(name[|name| - 4..]) == DLL
  }

  function WithDll(name: CString): (r: CString)
    ensures EndsInDll(r) && name <= r
  {
    if EndsInDll(name) then name
    else
      assert (name + DLL)[|name| + 4 - 4..] == DLL;
      name + DLL
  }

  function ParseForwarder(forwarder: CString): Option<Request> {
    var dot := LastDot(forwarder);
    if dot.None? || dot.value == 0 || dot.value + 1 == |forwarder| then None
    else
      var name, symbol := forwarder[..dot.value], forwarder[dot.value + 1..];
      if |WithDll(name)| + 1 > MODULE_CAPACITY then None
      else if symbol[0] != HASH then Some(Request(WithDll(name), ByName(symbol)))
      else
        var ordinal := StrToUl(symbol[1..]);
        if symbol[1..] == [] || ordinal.None? || ordinal.value > UINT32_MAX then None
        else Some(Request(WithDll(name), ByOrdinal(ordinal.value)))
  }

  // What forwarders that are written as intended mean

  predicate HasNo(s: seq<uint8>, c: uint8) {
    forall k :: 0 <= k < |s| ==> s[k] != c
  }

  lemma DotSplits(name: CString, symbol: CString)
    requires HasNo(symbol, DOT)
    ensures LastDot(name + [DOT] + symbol) == Some(|name|)
    ensures (name + [DOT] + symbol)[..|name|] == name && (name + [DOT] + symbol)[|name| + 1..] == symbol
  {
    var s := name + [DOT] + symbol;
    assert s[|name|] == DOT && forall k :: |name| < k < |s| ==> s[k] != DOT;
  }

  /** A name forwards to exactly that symbol of exactly that module, which gets ".dll" unless it has it. */
  lemma NameForwarder(name: CString, symbol: CString)
    requires name != [] && symbol != [] && symbol[0] != HASH && HasNo(symbol, DOT) && |WithDll(name)| < MODULE_CAPACITY
    ensures NoZero(name + [DOT] + symbol)
    ensures ParseForwarder(name + [DOT] + symbol) == Some(Request(WithDll(name), ByName(symbol)))
  {
    hide WithDll, EndsInDll;
    DotSplits(name, symbol);
  }

  /** The decimal text of a number. */
  function Decimal(n: nat): (s: seq<uint8>)
    ensures s != [] && AllDigits(s)
  {
    if n < 10 then [0x30 + n] else Decimal(n / 10) + [0x30 + n % 10]
  }

  lemma {:induction false} DigitsOfDecimal(n: nat)
    ensures Digits(Decimal(n)) == n
  {
    if n >= 10 {
      DigitsOfDecimal(n / 10);
      assert Decimal(n)[..|Decimal(n)| - 1] == Decimal(n / 10);
    } else {
      assert Digits([0x30 + n]) == 10 * Digits([]) + n;
    }
  }

  lemma DecimalIsWhole(n: nat)
    requires n < TWO_64
    ensures StrToUl(Decimal(n)) == Some(n)
  {
    DigitsOfDecimal(n);
    assert IsDigit(Decimal(n)[0]);
  }

  /** "#n" forwards to ordinal n. */
  lemma OrdinalForwarder(name: CString, ordinal: uint32)
    requires name != [] && |WithDll(name)| < MODULE_CAPACITY
    ensures NoZero(name + [DOT] + [HASH] + Decimal(ordinal))
    ensures ParseForwarder(name + [DOT] + [HASH] + Decimal(ordinal)) == Some(Request(WithDll(name), ByOrdinal(ordinal)))
  {
    hide WithDll, EndsInDll, StrToUl, Decimal, LastDot, Digits;
    var symbol := [HASH] + Decimal(ordinal);
    assert forall k :: 0 <= k < |Decimal(ordinal)| ==> IsDigit(Decimal(ordinal)[k]);
    DotSplits(name, symbol);
    DecimalIsWhole(ordinal);
    assert symbol[1..] == Decimal(ordinal);
    assert name + [DOT] + [HASH] + Decimal(ordinal) == name + [DOT] + symbol;
  }

  lemma PlainIffDigitFirst(text: seq<uint8>)
    requires text != [] && StrToUl(text).Some?
    ensures AllDigits(text) && Digits(text) == StrToUl(text).value <==> IsDigit(text[0])
  {
    hide Digits;
    if IsDigit(text[0]) {
      assert SkipSpaces(text) == text;
    }
  }

  lemma AfterDot(forwarder: seq<uint8>, dot: nat)
    requires dot + 1 < |forwarder| && forwarder[dot] == DOT && forwarder[dot + 1] == HASH
    requires forall k :: dot < k < |forwarder| ==> forwarder[k] != DOT
    ensures forwarder == forwarder[..dot] + [DOT] + [HASH] + forwarder[dot + 1..][1..]
    ensures forwarder[dot + 1..][0] == HASH && HasNo(forwarder[dot + 1..][1..], DOT)
  {
    assert forwarder[dot + 1..][1..] == forwarder[dot + 2..];
  }

  /**
   * The number text of an accepted ordinal forwarder is the plain decimal form of the
   * ordinal if and only if its first character is a digit: strtoul lets leading spaces
   * and a sign through.
   */
  lemma OrdinalIsPlainIffDigitFirst(forwarder: CString) returns (name: seq<uint8>, text: seq<uint8>)
    requires ParseForwarder(forwarder).Some? && ParseForwarder(forwarder).value.wanted.ByOrdinal?
    ensures forwarder == name + [DOT] + [HASH] + text && text != [] && HasNo(text, DOT)
    ensures AllDigits(text) && Digits(text) == ParseForwarder(forwarder).value.wanted.ordinal <==> IsDigit(text[0])
  {
    hide WithDll, EndsInDll, LastDot, StrToUl;
    var dot := LastDot(forwarder).value;
    name, text := forwarder[..dot], forwarder[dot + 1..][1..];
    AfterDot(forwarder, dot);
    PlainIffDigitFirst(text);
  }

  /** "a.# -18446744073709551615" is accepted and forwards to ordinal 1. */
  lemma SignedOrdinal()
    ensures ParseForwarder([0x61] + [DOT] + [HASH] + ([0x20, 0x2d] + Decimal(TWO_64 - 1)))
         == Some(Request([0x61] + DLL, ByOrdinal(1)))
  {
    hide Digits, Decimal, StrToUl;
    var digits := Decimal(TWO_64 - 1);
    var name, s := [0x61], [0x20, 0x2d] + digits;
    var symbol := [HASH] + s;
    assert forall k :: 0 <= k < |digits| ==> IsDigit(digits[k]);
    DotSplits(name, symbol);
    SignedText();
    assert symbol[1..] == s;
    assert name + [DOT] + [HASH] + s == name + [DOT] + symbol;
  }

  lemma SignedText()
    ensures StrToUl([0x20, 0x2d] + Decimal(TWO_64 - 1)) == Some(1)
  {
    hide Digits, Decimal;
    var s, digits := [0x20, 0x2d] + Decimal(TWO_64 - 1), Decimal(TWO_64 - 1);
    DigitsOfDecimal(TWO_64 - 1);
    assert s[1..] == [0x2d] + digits && s[1..][1..] == digits;
    assert SkipSpaces(s) == SkipSpaces(s[1..]) == s[1..];
  }

  // Every string whatever

  /** The last four characters are ".dll", in any case of letters. */
  predicate NamesDll(name: seq<uint8>) {
    var n := |name|;
    n >= 4 && name[n - 4] == 0x2e && name[n - 3] in {0x44, 0x64} && name[n - 2] in {0x4c, 0x6c} && name[n - 1] in {0x4c, 0x6c}
  }

  lemma WithDllMeans(name: CString)
    ensures WithDll(name) == if NamesDll(name) then name else name + [0x2e, 0x64, 0x6c, 0x6c]
  {
    if |name| >= 4 {
      var end := name[|name| - 4..];
      assert Folded(end) == [Fold(end[0]), Fold(end[1]), Fold(end[2]), Fold(end[3])];
      assert EndsInDll(name) <==> NamesDll(name);
    }
  }

  predicate Spaces(s: seq<uint8>) {
    forall k :: 0 <= k < |s| ==> s[k] in {0x09, 0x0a, 0x0b, 0x0c, 0x0d, 0x20}
  }

  /** A number as strtoul reads it: white space, a sign or none, digits. */
  datatype Number = Number(spaces: seq<uint8>, sign: seq<uint8>, digits: seq<uint8>)

  predicate IsNumber(n: Number) {
    Spaces(n.spaces) && n.sign in {[], [0x2b], [0x2d]} && n.digits != [] && AllDigits(n.digits) && Digits(n.digits) < TWO_64
  }

  function NumberText(n: Number): seq<uint8> {
    n.spaces + (n.sign + n.digits)
  }

  function NumberValue(n: Number): int
    requires IsNumber(n)
  {
    if n.sign == [0x2d] && Digits(n.digits) != 0 then TWO_64 - Digits(n.digits) else Digits(n.digits)
  }

  lemma {:induction false} SpacesSkipped(spaces: seq<uint8>, rest: seq<uint8>)
    requires Spaces(spaces) && (rest != [] ==> !IsSpace(rest[0]))
    ensures SkipSpaces(spaces + rest) == rest
  {
    if spaces == [] {
      assert spaces + rest == rest;
    } else {
      assert (spaces + rest)[1..] == spaces[1..] + rest;
      SpacesSkipped(spaces[1..], rest);
    }
  }

  lemma {:induction false} SkipsSpaces(s: seq<uint8>) returns (spaces: seq<uint8>)
    ensures Spaces(spaces) && s == spaces + SkipSpaces(s)
  {
    if s != [] && IsSpace(s[0]) {
      var more := SkipsSpaces(s[1..]);
      spaces := [s[0]] + more;
    } else {
      spaces := [];
    }
  }

  /** A text is taken for a number exactly when it is white space, at most one sign, and digits that fit 64 bits. */
  lemma NumberIff(s: seq<uint8>, v: uint64)
    ensures StrToUl(s) == Some(v) <==> exists n: Number :: IsNumber(n) && s == NumberText(n) && v == NumberValue(n)
  {
    hide Digits;
    if StrToUl(s) == Some(v) {
      var spaces := SkipsSpaces(s);
      var text := SkipSpaces(s);
      var signed := text[0] == 0x2b || text[0] == 0x2d;
      var n := Number(spaces, if signed then [text[0]] else [], if signed then text[1..] else text);
      assert n.sign + n.digits == text;
      assert IsNumber(n) && s == NumberText(n) && v == NumberValue(n);
    }
    forall n: Number | IsNumber(n) && s == NumberText(n)
      ensures StrToUl(s) == Some(NumberValue(n))
    {
      NumberReads(n);
    }
  }

  lemma NumberReads(n: Number)
    requires IsNumber(n)
    ensures StrToUl(NumberText(n)) == Some(NumberValue(n))
  {
    hide Digits;
    var text := n.sign + n.digits;
    assert IsDigit(n.digits[0]);
    SpacesSkipped(n.spaces, text);
    if n.sign != [] {
      assert text[1..] == n.digits;
    } else {
      assert text == n.digits;
    }
  }

  /** A forwarder string taken apart: what stands before and after its last dot. */
  predicate Apart(forwarder: CString, name: CString, symbol: CString) {
    forwarder == name + [0x2e] + symbol && name != [] && symbol != [] && HasNo(symbol, 0x2e)
  }

  /** What the part after the dot asks for. */
  predicate AsksFor(symbol: CString, wanted: Wanted)
    requires symbol != []
  {
    if symbol[0] != 0x23 then wanted == ByName(symbol)
    else wanted.ByOrdinal? && |symbol| > 1 && StrToUl(symbol[1..]) == Some(wanted.ordinal)
  }

  /**
   * Any string whatever: it forwards to a module and a symbol if and only if its last dot
   * has text on both sides, the module's name with its ".dll" is shorter than 128, and
   * what follows the dot names the symbol, or after a '#' an ordinal of 32 bits.
   */
  lemma ForwarderIff(forwarder: CString, q: Request)
    ensures ParseForwarder(forwarder) == Some(q) <==>
            exists name: CString, symbol: CString ::
              Apart(forwarder, name, symbol) && q.moduleName == WithDll(name) && |WithDll(name)| <= 127 && AsksFor(symbol, q.wanted)
  {
    hide WithDll, StrToUl, LastDot;
    if ParseForwarder(forwarder) == Some(q) {
      var dot := LastDot(forwarder).value;
      var name: CString, symbol: CString := forwarder[..dot], forwarder[dot + 1..];
      assert forwarder == name + [0x2e] + symbol;
      assert Apart(forwarder, name, symbol) && AsksFor(symbol, q.wanted);
    }
    forall name: CString, symbol: CString |
        Apart(forwarder, name, symbol) && q.moduleName == WithDll(name) && |WithDll(name)| <= 127 && AsksFor(symbol, q.wanted)
      ensures ParseForwarder(forwarder) == Some(q)
    {
      DotSplits(name, symbol);
    }
  }
}
