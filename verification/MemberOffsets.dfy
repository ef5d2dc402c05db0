/** Member offsets and bitfield layouts: how they are printed into the layout
    INI (UVTD/src/MemberVarsDumper.cpp), parsed back by the generated setters and
    combined with the generated defaults (UE4SS/generated_include/MacroSetter.hpp). */
module MemberOffsets {
  import opened Text
  import opened Numerals

  const INT32: int := 0x8000_0000
  const BYTE: nat := 256

  datatype BitfieldInfo = BitfieldInfo(bitPos: nat, bitLen: nat, storageSize: nat)

  // ----- printing -----

  function HexInt(n: int): string {
    if n < 0 then "-" + Digits(-n, Hex) else Digits(n, Hex)
  }

  function Fields(fields: seq<nat>): string {
    if fields == [] then "" else ":" + Digits(fields[0], Dec) + Fields(fields[1..])
  }

  /** `0x{:X}` and then one `:{}` for each field. */
  function Printed(offset: int, fields: seq<nat>): string {
    "0x" + (HexInt(offset) + Fields(fields))
  }

  // ----- std::stoi -----

  /** Digits at the start of `s`, or nothing when there are none or the number
      leaves the 32-bit range; both are exceptions in the source. */
  function Number(s: string, base: Base, negative: bool): Option<int> {
    var n := DigitRun(s, base);
    if n == 0 then None
    else
      DigitRunIsDigits(s, base);
      var v: int := Value(s[..n], base);
      var signed := if negative then -v else v;
      if -INT32 <= signed < INT32 then Some(signed) else None
  }

  /** `std::stoi(s)`, or `std::stoi(s, nullptr, 0)` when the prefix decides the base. */
  function Stoi(s: string, prefixed: bool): Option<int> {
    var t := SkipSpaces(s);
    var signed := t != "" && (t[0] == '-' || t[0] == '+');
    var negative := signed && t[0] == '-';
    var u := if signed then t[1..] else t;
    if !prefixed then Number(u, Dec, negative)
    else if |u| > 2 && u[0] == '0' && (u[1] == 'x' || u[1] == 'X') && IsDigit(u[2], Hex) then
      Number(u[2..], Hex, negative)
    else if u != "" && u[0] == '0' then Number(u, Oct, negative)
    else Number(u, Dec, negative)
  }

  // ----- what a value means -----

  function ColonAfter(s: string, from: nat): (r: Option<nat>)
    requires from <= |s|
    ensures r.Some? ==> from <= r.value && r.value + 1 < |s|
  {
    match FindFrom(s, ":", from) case Some(i) => if i + 1 < |s| then Some(i) else None case None => None
  }

  function Byte(n: int): nat { n % BYTE }

  function Field(s: string): Option<int> { Stoi(s, false) }

  /** A field and what follows it, when both could be read. */
  function Joined(field: Option<int>, later: Option<seq<int>>): Option<seq<int>> {
    if field.None? || later.None? then None else Some([field.value] + later.value)
  }

  /** Up to `limit` numbers, each after a colon; an exception gives none at all. */
  function FieldsAfter(s: string, from: nat, limit: nat, read: string -> Option<int>): (r: Option<seq<int>>)
    requires from <= |s|
    ensures r.Some? ==> |r.value| <= limit
    decreases limit
  {
    var colon := ColonAfter(s, from);
    if limit == 0 || colon.None? then Some([])
    else Joined(read(s[colon.value + 1..]), FieldsAfter(s, colon.value + 1, limit - 1, read))
  }

  function SizeOnly(fields: Option<seq<int>>): Option<nat> {
    if fields.None? then None else Some(if fields.value == [] then 1 else Byte(fields.value[0]))
  }

  lemma LengthThenSize(len: int, later: Option<seq<int>>)
    ensures LengthAndSize(Joined(Some(len), later))
         == if later.None? then None else Some((Byte(len), SizeOnly(later).value))
  {}

  function LengthAndSize(fields: Option<seq<int>>): Option<(nat, nat)> {
    if fields.None? then None
    else if fields.value == [] then Some((1, 1))
    else Some((Byte(fields.value[0]), if |fields.value| > 1 then Byte(fields.value[1]) else 1))
  }

  /** The layout that one to three numbers stand for. */
  function Assembled(fields: seq<int>): Option<BitfieldInfo> {
    if fields == [] then None
    else
      Some(BitfieldInfo(Byte(fields[0]),
                        if |fields| > 1 then Byte(fields[1]) else 1,
                        if |fields| > 2 then Byte(fields[2]) else 1))
  }

  function ParsedBits(s: string): Option<BitfieldInfo> {
    var fields := FieldsAfter(s, 0, 3, Field);
    if fields.None? then None else Assembled(fields.value)
  }

  datatype Layout = Layout(offset: Option<int>, bits: Option<BitfieldInfo>)

  const NOTHING := Layout(None, None)

  function Parsed(s: string): Layout {
    var offset := Stoi(s, true);
    if offset.None? then NOTHING else Layout(offset, ParsedBits(s))
  }

  function Emplaced<V>(m: map<string, V>, key: string, v: Option<V>): map<string, V> {
    if v.None? || key in m then m else m[key := v.value]
  }

  function FirstOf<V>(a: Option<V>, b: Option<V>): Option<V> { if a.Some? then a else b }

  // ----- the operations -----

  /** An INI value, absent or not. */
  type Setting = Option<string>

  function SettingLayout(v: Setting): Layout {
    if v.None? || v.value == "" then NOTHING else Parsed(v.value)
  }

  function ToInt32(v: int): int {
    var low := v % (2 * INT32);
    if low < INT32 then low else low - 2 * INT32
  }

  class ClassLayout {
    var offsets: map<string, int>
    var bitfields: map<string, BitfieldInfo>

    constructor ()
      ensures offsets == map[] && bitfields == map[]
    {
      offsets, bitfields := map[], map[];
    }

    method ParseMemberOffset(value: string, name: string)
      modifies this
      ensures offsets == Emplaced(old(offsets), name, Parsed(value).offset)
      ensures bitfields == Emplaced(old(bitfields), name, Parsed(value).bits)
    {
      var offset := Stoi(value, true);
      if offset.None? { return; }
      offsets := Emplaced(offsets, name, offset);
      var colon1 := FindFrom(value, ":", 0);
      if colon1.Some? && colon1.value + 1 < |value| {
        var bits := ParseBits(value, colon1.value + 1);
        bitfields := Emplaced(bitfields, name, bits);
      }
    }

    /** The rest of the value from the first field on; no result stands for an
        exception, after which nothing is stored. */
    method ParseBits(value: string, start: nat) returns (bits: Option<BitfieldInfo>)
      requires start < |value| && ColonAfter(value, 0) == Some(start - 1)
      ensures bits == ParsedBits(value)
    {
      ghost var later := FieldsAfter(value, start, 2, Field);
      assert FieldsAfter(value, 0, 3, Field) == Joined(Field(value[start..]), later);
      var bitPos := Field(value[start..]);
      if bitPos.None? { return None; }
      var rest := ParseLength(value, start);
      if rest.None? { return None; }
      bits := Some(BitfieldInfo(Byte(bitPos.value), rest.value.0, rest.value.1));
    }

    /** Length and storage size, if they are there. */
    method ParseLength(value: string, start: nat) returns (r: Option<(nat, nat)>)
      requires start <= |value|
      ensures r == LengthAndSize(FieldsAfter(value, start, 2, Field))
    {
      var colon2 := FindFrom(value, ":", start);
      if colon2.None? || colon2.value + 1 >= |value| { return Some((1, 1)); }
      ghost var later := FieldsAfter(value, colon2.value + 1, 1, Field);
      assert FieldsAfter(value, start, 2, Field) == Joined(Field(value[colon2.value + 1..]), later);
      var len := Field(value[colon2.value + 1..]);
      if len.None? { return None; }
      LengthThenSize(len.value, later);
      var size := ParseSize(value, colon2.value + 1);
      if size.None? { return None; }
      r := Some((Byte(len.value), size.value));
    }

    method ParseSize(value: string, start: nat) returns (r: Option<nat>)
      requires start <= |value|
      ensures r == SizeOnly(FieldsAfter(value, start, 1, Field))
    {
      var colon3 := FindFrom(value, ":", start);
      if colon3.None? || colon3.value + 1 >= |value| { return Some(1); }
      assert FieldsAfter(value, start, 1, Field) == Joined(Field(value[colon3.value + 1..]), Some([]));
      var size := Field(value[colon3.value + 1..]);
      if size.None? { return None; }
      r := Some(Byte(size.value));
    }

    /** The generated default: only for a member that has no offset yet. */
    method ApplyDefault(name: string, default: Layout)
      modifies this
      ensures offsets == Emplaced(old(offsets), name, default.offset)
      ensures bitfields == if name in old(offsets) then old(bitfields)
                           else Emplaced(old(bitfields), name, default.bits)
    {
      if name !in offsets {
        offsets := Emplaced(offsets, name, default.offset);
        bitfields := Emplaced(bitfields, name, default.bits);
      }
    }

    /** All the setters of one bitfield member: its original name, the alias when
        it was renamed, the generated default. */
    method SetBitfieldMember(name: string, original: Setting, alias: Setting, default: Layout)
      requires default.offset.Some? && default.bits.Some?
      requires name !in offsets && name !in bitfields
      modifies this
      ensures offsets == old(offsets)[name := Coalesced(original, alias, default).offset.value]
      ensures var bits := Coalesced(original, alias, default).bits;
        bitfields == if bits.Some? then old(bitfields)[name := bits.value] else old(bitfields)
    {
      if original.Some? && original.value != "" { ParseMemberOffset(original.value, name); }
      if alias.Some? && alias.value != "" { ParseMemberOffset(alias.value, name); }
      ApplyDefault(name, default);
    }

    /** The same for a plain member, whose values are 64-bit numbers and whose
        "absent" is -1. */
    method SetPlainMember(name: string, original: int, alias: int, default: int)
      requires name !in offsets
      modifies this`offsets
      ensures offsets == old(offsets)[name := if original != -1 then ToInt32(original)
                                              else if alias != -1 then ToInt32(alias) else default]
    {
      if original != -1 { offsets := Emplaced(offsets, name, Some(ToInt32(original))); }
      if alias != -1 { offsets := Emplaced(offsets, name, Some(ToInt32(alias))); }
      if name !in offsets { offsets := offsets[name := default]; }
    }
  }

  /** What a bitfield member ends up with: each half comes from the first INI
      value that has it, and the default counts only when no value has an offset. */
  function Coalesced(original: Setting, alias: Setting, default: Layout): Layout {
    var a, b := SettingLayout(original), SettingLayout(alias);
    var offset := FirstOf(a.offset, b.offset);
    if offset.None? then default else Layout(offset, FirstOf(a.bits, b.bits))
  }

  /** The source that decides the offset. */
  function Decisive(original: Setting, alias: Setting, default: Layout): Layout {
    if SettingLayout(original).offset.Some? then SettingLayout(original)
    else if SettingLayout(alias).offset.Some? then SettingLayout(alias)
    else default
  }

  /** Leaving out empty values changes nothing: they have no number either. */
  lemma EmptyIsNothing(v: Setting)
    ensures SettingLayout(v) == match v { case None => Layout(None, None) case Some(text) => Parsed(text) }
    ensures Parsed("") == Layout(None, None)
  {}

  /** A 64-bit value is stored as the 32-bit one that differs from it by a multiple
      of 2^32. */
  lemma ToInt32Wraps(v: int)
    ensures -0x8000_0000 <= ToInt32(v) < 0x8000_0000 && (v - ToInt32(v)) % 0x1_0000_0000 == 0
  {
    assert v - v % 0x1_0000_0000 == (v / 0x1_0000_0000) * 0x1_0000_0000;
  }

  /** The two halves come from one source unless the original value gives an
      offset alone and the alias gives both. */
  lemma HalvesAgreeIff(original: Setting, alias: Setting, default: Layout)
    requires default.offset.Some? && default.bits.Some?
    ensures Coalesced(original, alias, default) == Decisive(original, alias, default)
       <==> !(SettingLayout(original).offset.Some? && SettingLayout(original).bits.None?
              && SettingLayout(alias).bits.Some?)
  {}

  /** A getter for the member finds its layout exactly when no INI value sets
      the offset, or one of them also gives the layout. */
  lemma LayoutFoundIff(original: Setting, alias: Setting, default: Layout)
    requires default.offset.Some? && default.bits.Some?
    ensures Coalesced(original, alias, default).bits.Some?
       <==> || (SettingLayout(original).offset.None? && SettingLayout(alias).offset.None?)
            || SettingLayout(original).bits.Some?
            || SettingLayout(alias).bits.Some?
  {}

  // ----- reading back what was printed -----

  function FieldText(n: nat, rest: string): string { Digits(n, Dec) + rest }

  /** Why a numeral stops at a colon or at the end. */
  predicate Ends(rest: string) { rest == "" || rest[0] == ':' }

  function IfFits(v: int): Option<int> { if -0x8000_0000 <= v < 0x8000_0000 then Some(v) else None }

  lemma NumberOf(d: string, rest: string, base: Base, negative: bool)
    requires d != "" && AllDigits(d, base) && (rest == "" || !IsDigit(rest[0], base))
    ensures Number(d + rest, base, negative) == IfFits(Negated(Value(d, base), negative))
  {
    DigitRunStops(d, rest, base);
    assert (d + rest)[..|d|] == d;
  }

  lemma NumberReads(n: nat, rest: string, base: Base, negative: bool)
    requires rest == "" || !IsDigit(rest[0], base)
    ensures Number(Digits(n, base) + rest, base, negative) == IfFits(Negated(n, negative))
    ensures IsDigit((Digits(n, base) + rest)[0], base)
  {
    var d := Digits(n, base);
    DigitsRoundTrip(n, base);
    NumberOf(d, rest, base, negative);
    assert d[0] in d && (d + rest)[0] == d[0];
  }

  lemma NumberOfDigits(n: nat, rest: string, base: Base)
    requires Ends(rest)
    ensures Number(Digits(n, base) + rest, base, false) == if n < INT32 then Some(n) else None
    ensures IsDigit((Digits(n, base) + rest)[0], base)
  {
    NumberReads(n, rest, base, false);
  }

  function StoiUnsigned(u: string, prefixed: bool, negative: bool): Option<int> {
    if !prefixed then Number(u, Dec, negative)
    else if StartsWith(u, "0x") || StartsWith(u, "0X") then
      if |u| > 2 && IsDigit(u[2], Hex) then Number(u[2..], Hex, negative) else Number(u, Oct, negative)
    else if StartsWith(u, "0") then Number(u, Oct, negative)
    else Number(u, Dec, negative)
  }

  lemma PrefixIs(u: string)
    ensures StartsWith(u, "0") <==> u != "" && u[0] == '0'
    ensures StartsWith(u, "0x") <==> |u| > 1 && u[0] == '0' && u[1] == 'x'
    ensures StartsWith(u, "0X") <==> |u| > 1 && u[0] == '0' && u[1] == 'X'
  {
    assert |u| > 1 ==> u[..2] == [u[0], u[1]];
    assert |u| > 0 ==> u[..1] == [u[0]];
  }

  lemma StoiAfterSpaces(s: string, sign: string, u: string, prefixed: bool)
    requires IsSign(sign) && SkipSpaces(s) == sign + u && (u != "" ==> u[0] != '+' && u[0] != '-')
    ensures Stoi(s, prefixed) == StoiUnsigned(u, prefixed, sign == "-")
  {
    SignSplits(sign, u);
    PrefixIs(u);
  }

  /** What follows white space and a sign is read with that sign. */
  lemma StoiSign(pre: string, sign: string, u: string, prefixed: bool)
    requires (forall c <- pre :: IsSpace(c)) && IsSign(sign) && u != "" && IsDigit(u[0], Hex)
    ensures Stoi(pre + (sign + u), prefixed) == StoiUnsigned(u, prefixed, sign == "-")
  {
    SignSplits(sign, u);
    assert sign != "" ==> (sign + u)[0] == sign[0];
    SpacesAreSkipped(pre, sign + u);
    StoiAfterSpaces(pre + (sign + u), sign, u, prefixed);
  }

  /** A decimal number, after white space and a sign, up to the first other
      character: without a prefix, or where the prefix decides and there is none. */
  lemma StoiReadsDecimal(pre: string, sign: string, n: nat, rest: string, prefixed: bool)
    requires (forall c <- pre :: IsSpace(c)) && IsSign(sign) && (prefixed ==> n > 0)
    requires rest == "" || !IsDigit(rest[0], Dec)
    ensures Stoi(pre + (sign + (Digits(n, Dec) + rest)), prefixed) == IfFits(Signed(sign, n))
  {
    var u := Digits(n, Dec) + rest;
    NumberReads(n, rest, Dec, sign == "-");
    StoiSign(pre, sign, u, prefixed);
    if prefixed {
      NoLeadingZero(n, Dec);
      PrefixIs(u);
    }
  }

  /** The same for a hexadecimal one behind `0x` or `0X`. */
  lemma StoiReadsHex(pre: string, sign: string, prefix: string, n: nat, rest: string)
    requires (forall c <- pre :: IsSpace(c)) && IsSign(sign) && (prefix == "0x" || prefix == "0X")
    requires rest == "" || !IsDigit(rest[0], Hex)
    ensures Stoi(pre + (sign + (prefix + (Digits(n, Hex) + rest))), true) == IfFits(Signed(sign, n))
  {
    var u := prefix + (Digits(n, Hex) + rest);
    NumberReads(n, rest, Hex, sign == "-");
    assert u[..2] == prefix && u[2..] == Digits(n, Hex) + rest;
    StoiSign(pre, sign, u, true);
  }

  lemma OctalNumberReads(n: nat, rest: string, negative: bool)
    requires rest == "" || !IsDigit(rest[0], Oct)
    ensures Number("0" + (Digits(n, Oct) + rest), Oct, negative) == IfFits(Negated(n, negative))
    ensures var u := "0" + (Digits(n, Oct) + rest); |u| > 1 && u[0] == '0' && IsDigit(u[1], Oct)
  {
    var d := Digits(n, Oct);
    DigitsRoundTrip(n, Oct);
    ZeroInFront(d, Oct);
    NumberOf("0" + d, rest, Oct, negative);
    assert "0" + (d + rest) == ("0" + d) + rest;
    assert ("0" + (d + rest))[1] == d[0] && d[0] in d;
  }

  /** And for an octal one behind `0`. */
  lemma StoiReadsOctal(pre: string, sign: string, n: nat, rest: string)
    requires (forall c <- pre :: IsSpace(c)) && IsSign(sign)
    requires rest == "" || !IsDigit(rest[0], Oct)
    ensures Stoi(pre + (sign + ("0" + (Digits(n, Oct) + rest))), true) == IfFits(Signed(sign, n))
  {
    var u := "0" + (Digits(n, Oct) + rest);
    OctalNumberReads(n, rest, sign == "-");
    StoiSign(pre, sign, u, true);
    PrefixIs(u);
  }

  /** Without a digit there is nothing to read. */
  lemma StoiNeedsDigit(pre: string, sign: string, u: string, prefixed: bool)
    requires (forall c <- pre :: IsSpace(c)) && IsSign(sign)
    requires u == "" || (!IsDigit(u[0], Dec) && !IsSpace(u[0]) && u[0] != '+' && u[0] != '-')
    ensures Stoi(pre + (sign + u), prefixed) == None
  {
    SpacesAreSkipped(pre, sign + u);
    assert sign != "" ==> (sign + u)[1..] == u;
    assert sign == "" ==> sign + u == u;
  }

  lemma StoiDecimal(n: nat, rest: string)
    requires Ends(rest)
    ensures Stoi(Digits(n, Dec) + rest, false) == if n < INT32 then Some(n) else None
  {
    NumberOfDigits(n, rest, Dec);
  }

  lemma StoiHex(n: nat, rest: string)
    requires Ends(rest)
    ensures Stoi("0x" + (Digits(n, Hex) + rest), true) == if n < INT32 then Some(n) else None
  {
    var body := Digits(n, Hex) + rest;
    NumberOfDigits(n, rest, Hex);
    var s := "0x" + body;
    assert s[0] == '0' && s[1] == 'x' && s[2] == body[0] && s[2..] == body;
    assert SkipSpaces(s) == s;
  }

  /** A negative offset prints as `0x-8`, which reads as zero. */
  lemma StoiHexNegative(rest: string)
    ensures Stoi("0x" + ("-" + rest), true) == Some(0)
  {
    var s := "0x" + ("-" + rest);
    assert s[0] == '0' && s[1] == 'x' && s[2] == '-';
    assert SkipSpaces(s) == s;
    assert s[1..][0] == 'x';
    assert DigitRun(s[1..], Oct) == 0;
    assert DigitRun(s, Oct) == 1;
    assert s[..1] == "0";
    ValueOfAppended("", '0', Oct);
    assert "" + ['0'] == "0";
  }

  lemma FieldsEnd(fields: seq<nat>)
    ensures Ends(Fields(fields))
  {}

  lemma NoColonInDigits(n: nat, base: Base)
    ensures ':' !in Digits(n, base)
  {
    DigitsRoundTrip(n, base);
    assert !IsDigit(':', base);
  }

  /** From `from` on, `s` is a colon-free text and then printed fields. */
  predicate At(s: string, from: nat, w: string, fields: seq<nat>) {
    from <= |s| && s[from..] == w + Fields(fields) && ':' !in w
  }

  /** The next colon is where the next field starts, if there is one. */
  lemma NextColon(s: string, w: string, fields: seq<nat>, from: nat)
    requires At(s, from, w, fields)
    ensures ColonAfter(s, from) == if fields == [] then None else Some(from + |w|)
    ensures fields != [] ==> s[from + |w| + 1..] == FieldText(fields[0], Fields(fields[1..]))
    ensures fields != [] ==> At(s, from + |w| + 1, Digits(fields[0], Dec), fields[1..])
  {
    FieldsEnd(fields);
    ColonAt(s, from, w, Fields(fields));
    if fields != [] {
      var d := Digits(fields[0], Dec);
      DigitsRoundTrip(fields[0], Dec);
      AfterColon(s, from, w, d + Fields(fields[1..]));
      NoColonInDigits(fields[0], Dec);
    }
  }

  lemma ColonAt(s: string, from: nat, w: string, rest: string)
    requires from <= |s| && s[from..] == w + rest && ':' !in w && Ends(rest)
    ensures FindFrom(s, ":", from) == if rest == "" then None else Some(from + |w|)
  {
    forall i | from <= i <= |s| ensures StartsWith(s[i..], ":") <==> i < |s| && s[i] == ':' {}
    forall i | from <= i < from + |w| ensures s[i] != ':' {
      assert s[i] == s[from..][i - from] == w[i - from];
    }
    if rest != "" {
      assert s[from + |w|] == s[from..][|w|] == ':';
      assert StartsWith(s[from + |w|..], ":");
    }
  }

  lemma AfterColon(s: string, from: nat, w: string, rest: string)
    requires from <= |s| && s[from..] == w + (":" + rest)
    ensures s[from + |w| + 1..] == rest
  {
    assert s[from + |w| + 1..] == s[from..][|w| + 1..];
  }

  predicate Fit(fields: seq<nat>) { forall f <- fields :: f < INT32 }

  /** What the number parser does on a printed field. */
  ghost predicate ReadsFields(read: string -> Option<int>) {
    forall n: nat, rest: string | Ends(rest) :: read(FieldText(n, rest)) == if n < INT32 then Some(n) else None
  }

  lemma FieldReadsFields()
    ensures ReadsFields(Field)
  {
    forall n: nat, rest: string | Ends(rest)
      ensures Field(FieldText(n, rest)) == if n < INT32 then Some(n) else None
    {
      StoiDecimal(n, rest);
    }
  }

  lemma FieldsAfterStep(s: string, from: nat, limit: nat, read: string -> Option<int>, at: nat)
    requires from <= |s| && limit > 0 && ColonAfter(s, from) == Some(at)
    ensures FieldsAfter(s, from, limit, read) == Joined(read(s[at + 1..]), FieldsAfter(s, at + 1, limit - 1, read))
  {}

  lemma FitSplits(fields: seq<nat>)
    requires fields != []
    ensures Fit(fields) <==> fields[0] < INT32 && Fit(fields[1..])
  {
    forall f | f in fields ensures f == fields[0] || f in fields[1..] {
      assert fields == [fields[0]] + fields[1..];
    }
    if Fit(fields) {
      assert fields[0] in fields;
      assert forall f <- fields[1..] :: f in fields;
    }
  }

  lemma JoinedFields(fields: seq<nat>)
    requires fields != []
    ensures Joined(if fields[0] < INT32 then Some(fields[0]) else None,
                   if Fit(fields[1..]) then Some(fields[1..]) else None)
         == if Fit(fields) then Some(fields) else None
  {
    assert fields == [fields[0]] + fields[1..];
    FitSplits(fields);
  }

  lemma NoFields(s: string, w: string, from: nat, limit: nat, read: string -> Option<int>)
    requires At(s, from, w, [])
    ensures FieldsAfter(s, from, limit, read) == Some([]) && Fit([])
  {
    NextColon(s, w, [], from);
  }

  /** One field, when the later ones are read back. */
  lemma OneMoreField(s: string, fields: seq<nat>, from: nat, limit: nat, read: string -> Option<int>, at: nat)
    requires fields != [] && limit > 0 && from <= |s| && ColonAfter(s, from) == Some(at)
    requires read(s[at + 1..]) == if fields[0] < INT32 then Some(fields[0]) else None
    requires FieldsAfter(s, at + 1, limit - 1, read) == if Fit(fields[1..]) then Some(fields[1..]) else None
    ensures FieldsAfter(s, from, limit, read) == if Fit(fields) then Some(fields) else None
  {
    FieldsAfterStep(s, from, limit, read, at);
    JoinedFields(fields);
  }

  lemma ReadsField(read: string -> Option<int>, n: nat, rest: string)
    requires ReadsFields(read) && Ends(rest)
    ensures read(FieldText(n, rest)) == if n < INT32 then Some(n) else None
  {}

  /** Printed fields are read back as numbers, all or none. */
  lemma {:induction false} FieldsOfPrinted(
    s: string, w: string, fields: seq<nat>, from: nat, limit: nat, read: string -> Option<int>)
    requires At(s, from, w, fields) && |fields| <= limit
    requires ReadsFields(read)
    ensures FieldsAfter(s, from, limit, read) == if Fit(fields) then Some(fields) else None
    decreases limit
  {
    if fields == [] {
      NoFields(s, w, from, limit, read);
    } else {
      NextColon(s, w, fields, from);
      FieldsEnd(fields[1..]);
      FieldsOfPrinted(s, Digits(fields[0], Dec), fields[1..], from + |w| + 1, limit - 1, read);
      ReadsField(read, fields[0], Fields(fields[1..]));
      OneMoreField(s, fields, from, limit, read, from + |w|);
    }
  }

  lemma PrintedHead(offset: int)
    ensures ':' !in "0x" + HexInt(offset)
  {
    NoColonInDigits(if offset < 0 then -offset else offset, Hex);
  }

  /** What the layout part of a printed value means: missing fields default to
      1, and a field that does not fit 32 bits spoils all of them. */
  function Meant(fields: seq<nat>): Option<BitfieldInfo> {
    if Fit(fields) then Assembled(fields) else None
  }

  /** What the parser makes of any printed value, short forms included. */
  lemma PrintedMeans(offset: int, fields: seq<nat>)
    requires -INT32 <= offset < INT32 && |fields| <= 3
    ensures Parsed(Printed(offset, fields)) == Layout(Some(if offset < 0 then 0 else offset), Meant(fields))
  {
    PrintedOffset(offset, fields);
    PrintedBits(offset, fields);
  }

  lemma PrintedBits(offset: int, fields: seq<nat>)
    requires |fields| <= 3
    ensures ParsedBits(Printed(offset, fields)) == Meant(fields)
  {
    var s, head := Printed(offset, fields), "0x" + HexInt(offset);
    PrintedHead(offset);
    assert s[0..] == head + Fields(fields);
    FieldReadsFields();
    FieldsOfPrinted(s, head, fields, 0, 3, Field);
  }

  lemma PrintedOffset(offset: int, fields: seq<nat>)
    requires -INT32 <= offset < INT32
    ensures Stoi(Printed(offset, fields), true) == Some(if offset < 0 then 0 else offset)
  {
    FieldsEnd(fields);
    if offset < 0 {
      assert HexInt(offset) + Fields(fields) == "-" + (Digits(-offset, Hex) + Fields(fields));
      StoiHexNegative(Digits(-offset, Hex) + Fields(fields));
    } else {
      StoiHex(offset, Fields(fields));
    }
  }

  /** A printed bitfield is read back exactly when its offset is not negative
      and its storage size, a 32-bit number, fits the byte it is read into. */
  lemma RoundTripIff(offset: int, bits: BitfieldInfo)
    requires -0x8000_0000 <= offset < 0x8000_0000
    requires bits.bitPos < 256 && bits.bitLen < 256
    ensures Parsed(Printed(offset, [bits.bitPos, bits.bitLen, bits.storageSize])) == Layout(Some(offset), Some(bits))
       <==> 0 <= offset && bits.storageSize < 256
  {
    PrintedMeans(offset, [bits.bitPos, bits.bitLen, bits.storageSize]);
    MeantThree(bits);
  }

  lemma MeantThree(bits: BitfieldInfo)
    requires bits.bitPos < BYTE && bits.bitLen < BYTE
    ensures Meant([bits.bitPos, bits.bitLen, bits.storageSize]) == Some(bits) <==> bits.storageSize < BYTE
  {
    assert bits.storageSize in [bits.bitPos, bits.bitLen, bits.storageSize];
  }

  /** Fewer fields read back as what they say, with 1 for the rest. */
  lemma ShortForms(offset: nat, pos: nat, len: nat)
    requires offset < 0x8000_0000 && pos < 256 && len < 256
    ensures Parsed(Printed(offset, [])) == Layout(Some(offset), None)
    ensures Parsed(Printed(offset, [pos])) == Layout(Some(offset), Some(BitfieldInfo(pos, 1, 1)))
    ensures Parsed(Printed(offset, [pos, len])) == Layout(Some(offset), Some(BitfieldInfo(pos, len, 1)))
  {
    PrintedMeans(offset, []);
    PrintedMeans(offset, [pos]);
    PrintedMeans(offset, [pos, len]);
    MeantShort(pos, len);
  }

  lemma MeantShort(pos: nat, len: nat)
    requires pos < BYTE && len < BYTE
    ensures Meant([]) == None
    ensures Meant([pos]) == Some(BitfieldInfo(pos, 1, 1))
    ensures Meant([pos, len]) == Some(BitfieldInfo(pos, len, 1))
  {}
}
