/** Engine versions and the text keys `Major_Minor` that order them in a `std::map`. */
module VersionKeys {
  import opened Numerals
  import opened Text

  datatype PdbNameInfo = PdbNameInfo(major: nat, minor: nat, baseVersion: string)

  /** `operator<` of strings. */
  predicate Less(a: string, b: string) {
    b != "" && (a == "" || a[0] < b[0] || (a[0] == b[0] && Less(a[1..], b[1..])))
  }

  predicate AtMost(a: string, b: string) { !Less(b, a) }

  lemma {:induction false} LessTotal(a: string, b: string)
    ensures Less(a, b) || a == b || Less(b, a)
    ensures !(Less(a, b) && Less(b, a))
    ensures !Less(a, a)
  {
    if a != "" {
      LessTotal(a[1..], if b == "" then "" else b[1..]);
      if b != "" && a[0] == b[0] && a[1..] == b[1..] {
        assert a == [a[0]] + a[1..];
        assert b == [b[0]] + b[1..];
      }
    }
  }

  lemma {:induction false} LessTransitive(a: string, b: string, c: string)
    requires Less(a, b) && Less(b, c)
    ensures Less(a, c)
  {
    if a != "" && a[0] == b[0] && b[0] == c[0] {
      LessTransitive(a[1..], b[1..], c[1..]);
    }
  }

  lemma AtMostTransitive(a: string, b: string, c: string)
    requires AtMost(a, b) && AtMost(b, c)
    ensures AtMost(a, c)
  {
    LessTotal(a, b);
    LessTotal(b, c);
    LessTotal(a, c);
    if Less(a, b) && Less(b, c) { LessTransitive(a, b, c); }
  }

  /** `Major_Minor`, the minor always with two digits at least. */
  function Key(major: nat, minor: nat): string { Digits(major, Dec) + "_" + Padded2(minor) }

  /** The naming convention of the PDB files: one digit, `_`, two digits. */
  predicate Canonical(info: PdbNameInfo) {
    info.major < 10 && info.minor < 100 && info.baseVersion == Key(info.major, info.minor)
  }

  predicate Earlier(major: nat, minor: nat, major': nat, minor': nat) {
    major < major' || (major == major' && minor < minor')
  }

  /** Under the naming convention the text order is the version order. */
  lemma CanonicalOrder(a: PdbNameInfo, b: PdbNameInfo)
    requires Canonical(a) && Canonical(b)
    ensures Less(a.baseVersion, b.baseVersion) <==> Earlier(a.major, a.minor, b.major, b.minor)
  {
    var s, t := a.baseVersion, b.baseVersion;
    Padded2Splits(a.minor);
    Padded2Splits(b.minor);
    assert s == [Digit(a.major), '_', Digit(a.minor / 10), Digit(a.minor % 10)];
    assert t == [Digit(b.major), '_', Digit(b.minor / 10), Digit(b.minor % 10)];
    if a.major == b.major {
      assert Less(s, t) == Less(s[1..], t[1..]) == Less(s[1..][1..], t[1..][1..]);
      LessTwo(a.minor, b.minor);
      assert s[1..][1..] == Padded2(a.minor) && t[1..][1..] == Padded2(b.minor);
    }
  }

  lemma LessTwo(m: nat, n: nat)
    requires m < 100 && n < 100
    ensures Less(Padded2(m), Padded2(n)) <==> m < n
  {
    Padded2Splits(m);
    Padded2Splits(n);
    var s, t := Padded2(m), Padded2(n);
    assert s[1..] == [Digit(m % 10)] && t[1..] == [Digit(n % 10)];
    assert Less(s[1..], t[1..]) <==> m % 10 < n % 10;
  }

  predicate SortsRight(major: nat, minor: nat, major': nat, minor': nat) {
    Less(Key(major, minor), Key(major', minor')) <==> Earlier(major, minor, major', minor')
  }

  ghost predicate AllSortRight(bound: nat) {
    forall a: nat, x: nat, b: nat, y: nat :: a < bound && b < bound && x < 100 && y < 100 ==> SortsRight(a, x, b, y)
  }

  /** A two-digit major version sorts before every one-digit one above 1. */
  lemma MajorTenBreaksTheOrder()
    ensures !SortsRight(10, 0, 4, 25)
  {
    assert Digits(10, Dec) == Digits(1, Dec) + "0" == "10" && Digits(25, Dec) == Digits(2, Dec) + "5" == "25";
    assert Key(10, 0) == "10" + "_" + "00" && Key(4, 25) == "4" + "_" + "25";
  }

  /** All majors below a bound sort like their versions exactly when the bound is
      at most ten. */
  lemma MajorsSortRightIff(bound: nat)
    ensures AllSortRight(bound) <==> bound <= 10
  {
    if bound <= 10 {
      forall a: nat, x: nat, b: nat, y: nat | a < bound && b < bound && x < 100 && y < 100
        ensures SortsRight(a, x, b, y)
      {
        CanonicalOrder(PdbNameInfo(a, x, Key(a, x)), PdbNameInfo(b, y, Key(b, y)));
      }
    } else {
      MajorTenBreaksTheOrder();
    }
  }
}
