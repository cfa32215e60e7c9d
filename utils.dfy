/** The pure helpers of src/lib/utils.ts: the performance colour classifiers,
    the zero guards of the two formatters, random identifiers and the IP and
    MAC address validators. */
module Utils {

  // ---------------------------------------------------------------------------
  // JavaScript numbers
  // ---------------------------------------------------------------------------

  /** A JavaScript number. Finite values are kept as exact reals (rounding is not
      modelled); the three special values matter because every comparison with
      NaN is false and the infinities lie beyond every bound. */
  datatype JsNumber = Finite(value: real) | PositiveInfinity | NegativeInfinity | NaN

  /** `x < bound` */
  predicate Below(x: JsNumber, bound: real) {
    match x
    case Finite(v) => v < bound
    case NegativeInfinity => true
    case PositiveInfinity => false
    case NaN => false
  }

  /** `x === 0`, which holds for both +0 and -0. */
  predicate IsZero(x: JsNumber) {
    x == Finite(0.0)
  }

  // ---------------------------------------------------------------------------
  // Performance colours
  // ---------------------------------------------------------------------------

  /** The three colour families a usage percentage is shown in. */
  datatype Band = Green | Yellow | Red

  function BandName(b: Band): string {
    match b
    case Green => "green"
    case Yellow => "yellow"
    case Red => "red"
  }

  function BandRank(b: Band): nat {
    match b
    case Green => 0
    case Yellow => 1
    case Red => 2
  }

  /** The band of a usage percentage: below 50, below 80, or anything else
      (NaN included, since it is below nothing). */
  function BandOf(usage: JsNumber): (b: Band)
    ensures b == Green <==> Below(usage, 50.0)
    ensures b == Yellow <==> !Below(usage, 50.0) && Below(usage, 80.0)
    ensures b == Red <==> !Below(usage, 80.0)
  {
    if Below(usage, 50.0) then Green
    else if Below(usage, 80.0) then Yellow
    else Red
  }

  /** A higher finite usage never falls in a lower band. */
  lemma BandMonotone(a: real, b: real)
    requires a <= b
    ensures BandRank(BandOf(Finite(a))) <= BandRank(BandOf(Finite(b)))
  {
  }

  /** getPerformanceColor: the text colour class of a usage percentage. */
  function GetPerformanceColor(usage: JsNumber): (cls: string)
    ensures cls == "text-" + BandName(BandOf(usage)) + "-500"
  {
    if Below(usage, 50.0) then "text-green-500"
    else if Below(usage, 80.0) then "text-yellow-500"
    else "text-red-500"
  }

  /** getPerformanceBackgroundColor: the background colour class of a usage percentage. */
  function GetPerformanceBackgroundColor(usage: JsNumber): (cls: string)
    ensures cls == "bg-" + BandName(BandOf(usage)) + "-500"
  {
    if Below(usage, 50.0) then "bg-green-500"
    else if Below(usage, 80.0) then "bg-yellow-500"
    else "bg-red-500"
  }

  /** Text and background classes name the same colour family for every usage. */
  lemma TextAndBackgroundAgree(usage: JsNumber)
    ensures GetPerformanceColor(usage)[|"text-"|..] == GetPerformanceBackgroundColor(usage)[|"bg-"|..]
  {
    var family := BandName(BandOf(usage)) + "-500";
    assert GetPerformanceColor(usage) == "text-" + family;
    assert GetPerformanceBackgroundColor(usage) == "bg-" + family;
  }

  // ---------------------------------------------------------------------------
  // Formatters: only the exact guards are modelled
  // ---------------------------------------------------------------------------

  /** What formatBytes returns: the literal text, the floating-point rendering
      of `bytes` scaled to a power of 1024 with `fractionDigits` decimals, which
      this model leaves abstract, or the RangeError `toFixed` throws for a
      number of decimals outside 0..100. */
  datatype ByteText =
    | ByteLiteral(text: string)
    | ScaledBytes(bytes: JsNumber, fractionDigits: nat)
    | BytesRangeError(digits: int)

  /** `toFixed` accepts 0 to 100 fraction digits and throws a RangeError otherwise. */
  predicate FixedDigitsInRange(digits: int) {
    0 <= digits <= 100
  }

  /** formatBytes(bytes, decimals) */
  function FormatBytes(bytes: JsNumber, decimals: int): (t: ByteText)
    ensures IsZero(bytes) ==> t == ByteLiteral("0 Bytes")
    ensures !IsZero(bytes) && decimals > 100 ==> t == BytesRangeError(decimals)
    ensures !IsZero(bytes) && decimals <= 100 ==>
              t.ScaledBytes? && t.bytes == bytes && t.fractionDigits == (if decimals < 0 then 0 else decimals)
    ensures t.ScaledBytes? ==> FixedDigitsInRange(t.fractionDigits)
  {
    if IsZero(bytes) then ByteLiteral("0 Bytes")
    else
      var dm := if decimals < 0 then 0 else decimals;
      if FixedDigitsInRange(dm) then ScaledBytes(bytes, dm) else BytesRangeError(dm)
  }

  /** A negative number of decimals behaves exactly like zero decimals. */
  lemma NegativeDecimalsActAsZero(bytes: JsNumber, decimals: int)
    requires decimals < 0
    ensures FormatBytes(bytes, decimals) == FormatBytes(bytes, 0)
  {
  }

  /** What formatPercentage returns: the literal text, the floating-point
      rendering of `value / total * 100` with `decimals` decimals and a "%",
      or the RangeError `toFixed` throws for a number of decimals outside 0..100. */
  datatype PercentText =
    | PercentLiteral(text: string)
    | Ratio(value: JsNumber, total: JsNumber, decimals: nat)
    | PercentRangeError(digits: int)

  /** formatPercentage(value, total, decimals) */
  function FormatPercentage(value: JsNumber, total: JsNumber, decimals: int): (t: PercentText)
    ensures t.PercentLiteral? <==> IsZero(total)
    ensures t.PercentLiteral? ==> t.text == "0%"
    ensures !IsZero(total) ==> (t.PercentRangeError? <==> !FixedDigitsInRange(decimals))
    ensures t.PercentRangeError? ==> t.digits == decimals
    ensures t.Ratio? ==> t.value == value && t.total == total && t.decimals == decimals
  {
    if IsZero(total) then PercentLiteral("0%")
    else if !FixedDigitsInRange(decimals) then PercentRangeError(decimals)
    else Ratio(value, total, decimals)
  }

  /** With a zero total the value is ignored altogether. */
  lemma ZeroTotalIgnoresValue(v1: JsNumber, v2: JsNumber, total: JsNumber, d1: int, d2: int)
    requires IsZero(total)
    ensures FormatPercentage(v1, total, d1) == FormatPercentage(v2, total, d2)
  {
  }

  // ---------------------------------------------------------------------------
  // generateId
  // ---------------------------------------------------------------------------

  const IdAlphabet: string := "ABCDEFGHIJKLMNOPQRSTUVWXYZabcdefghijklmnopqrstuvwxyz0123456789"

  /** The character picked by one draw `r` of Math.random():
      `chars.charAt(Math.floor(r * chars.length))`. */
  function IdChar(r: real): (c: char)
    requires 0.0 <= r < 1.0
    ensures c in IdAlphabet
  {
    assert |IdAlphabet| == 62;
    var k := (r * 62.0).Floor;
    assert 0 <= k < 62;
    IdAlphabet[k]
  }

  /** Every character of the alphabet is picked by some draw. */
  lemma IdCharReachesEveryCharacter(k: nat)
    requires k < |IdAlphabet|
    ensures 0.0 <= k as real / 62.0 < 1.0
    ensures IdChar(k as real / 62.0) == IdAlphabet[k]
  {
    assert |IdAlphabet| == 62;
    assert (k as real / 62.0) * 62.0 == k as real;
  }

  /** generateId(length): `draws` are the successive results of Math.random(),
      each in [0, 1). One draw is consumed per character. */
  method GenerateId(length: int, draws: seq<real>) returns (id: string)
    requires forall i :: 0 <= i < |draws| ==> 0.0 <= draws[i] < 1.0
    requires length <= |draws|
    ensures |id| == if length <= 0 then 0 else length
    ensures forall i :: 0 <= i < |id| ==> id[i] in IdAlphabet
    ensures forall i :: 0 <= i < |id| ==> id[i] == IdChar(draws[i])
  {
    id := "";
    var i := 0;
    while i < length
      invariant 0 <= i
      invariant i <= length || i == 0
      invariant |id| == i
      invariant forall j :: 0 <= j < i ==> id[j] == IdChar(draws[j])
    {
      id := id + [IdChar(draws[i])];
      i := i + 1;
    }
  }

  // ---------------------------------------------------------------------------
  // Splitting and joining on a separator character
  // ---------------------------------------------------------------------------

  /** The fields of `s` between occurrences of `sep` (like String.prototype.split
      with a one-character separator). */
  function Split(s: string, sep: char): (parts: seq<string>)
    ensures |parts| >= 1
    ensures forall i :: 0 <= i < |parts| ==> sep !in parts[i]
    decreases |s|
  {
    if s == [] then [""]
    else
      var rest := Split(s[1..], sep);
      if s[0] == sep then [""] + rest
      else [[s[0]] + rest[0]] + rest[1..]
  }

  /** The fields `parts` with `sep` between each two. */
  function Join(parts: seq<string>, sep: char): string
    requires |parts| >= 1
    decreases |parts|
  {
    if |parts| == 1 then parts[0]
    else parts[0] + [sep] + Join(parts[1..], sep)
  }

  /** Joining the fields of a split gives back the string. */
  lemma {:induction false} JoinSplit(s: string, sep: char)
    ensures Join(Split(s, sep), sep) == s
    decreases |s|
  {
    if s != [] {
      var rest := Split(s[1..], sep);
      JoinSplit(s[1..], sep);
      if s[0] == sep {
        assert Split(s, sep) == [""] + rest;
        assert ([""] + rest)[1..] == rest;
      } else {
        var parts := [[s[0]] + rest[0]] + rest[1..];
        assert Split(s, sep) == parts;
        if |rest| == 1 {
          assert Join(parts, sep) == [s[0]] + rest[0];
        } else {
          assert parts[1..] == rest[1..];
          assert Join(parts, sep) == [s[0]] + rest[0] + [sep] + Join(rest[1..], sep);
          assert Join(rest, sep) == rest[0] + [sep] + Join(rest[1..], sep);
        }
      }
    }
  }

  /** Splitting a join of separator-free fields gives back the fields. */
  lemma {:induction false} SplitJoin(parts: seq<string>, sep: char)
    requires |parts| >= 1
    requires forall i :: 0 <= i < |parts| ==> sep !in parts[i]
    ensures Split(Join(parts, sep), sep) == parts
    decreases |parts|, |parts[0]|
  {
    var p := parts[0];
    if p == [] {
      if |parts| == 1 {
        assert Join(parts, sep) == [];
      } else {
        SplitJoin(parts[1..], sep);
        var s := Join(parts, sep);
        assert s == [sep] + Join(parts[1..], sep);
        assert s[1..] == Join(parts[1..], sep);
        assert Split(s, sep) == [""] + parts[1..];
      }
    } else {
      var parts' := [p[1..]] + parts[1..];
      assert sep !in parts'[0] by {
        assert forall c :: c in p[1..] ==> c in p;
      }
      assert forall i :: 1 <= i < |parts'| ==> parts'[i] == parts[i];
      SplitJoin(parts', sep);
      var s := Join(parts, sep);
      assert parts'[1..] == parts[1..];
      assert s == [p[0]] + Join(parts', sep) by {
        if |parts| == 1 {
          assert p == [p[0]] + p[1..];
        } else {
          assert p + [sep] + Join(parts[1..], sep) == [p[0]] + (p[1..] + [sep] + Join(parts[1..], sep));
        }
      }
      assert s[0] == p[0] && s[1..] == Join(parts', sep);
      assert p[0] != sep by { assert p[0] in p; }
      assert [p[0]] + p[1..] == p;
      assert Split(s, sep) == [[p[0]] + parts'[0]] + parts'[1..];
    }
  }

  /** A join of non-empty separator-free fields never has two separators in a
      row, nor one at either end. */
  lemma {:induction false} JoinHasNoEmptyField(parts: seq<string>, sep: char, i: int)
    requires |parts| >= 1
    requires forall j :: 0 <= j < |parts| ==> parts[j] != [] && sep !in parts[j]
    requires 0 <= i < |Join(parts, sep)| - 1
    ensures !(Join(parts, sep)[i] == sep && Join(parts, sep)[i + 1] == sep)
    ensures Join(parts, sep)[0] != sep
    decreases |parts|
  {
    var p := parts[0];
    assert p[0] in p;
    if |parts| > 1 {
      var tail := Join(parts[1..], sep);
      var s := Join(parts, sep);
      assert s == p + [sep] + tail;
      if i < |p| - 1 {
        assert s[i] == p[i] && p[i] in p;
      } else if i == |p| - 1 {
        assert s[i] == p[i] && p[i] in p;
      } else if i == |p| {
        assert |parts[1..]| >= 1;
        assert forall j :: 0 <= j < |parts[1..]| ==> parts[1..][j] == parts[j + 1];
        if |tail| >= 2 {
          JoinHasNoEmptyField(parts[1..], sep, 0);
        } else {
          assert parts[1] != [] && parts[1][0] in parts[1];
          assert |parts[1..]| == 1 ==> tail == parts[1];
          assert |parts[1..]| > 1 ==> |tail| >= 2;
        }
        assert s[i + 1] == tail[0];
      } else {
        assert forall j :: 0 <= j < |parts[1..]| ==> parts[1..][j] == parts[j + 1];
        JoinHasNoEmptyField(parts[1..], sep, i - |p| - 1);
        assert s[i] == tail[i - |p| - 1] && s[i + 1] == tail[i - |p|];
      }
    }
  }

  // ---------------------------------------------------------------------------
  // isValidIP
  // ---------------------------------------------------------------------------

  predicate IsDigit(c: char) {
    '0' <= c <= '9'
  }

  predicate IsHexDigit(c: char) {
    IsDigit(c) || 'a' <= c <= 'f' || 'A' <= c <= 'F'
  }

  predicate AllDigits(g: string) {
    forall i :: 0 <= i < |g| ==> IsDigit(g[i])
  }

  predicate AllHexDigits(g: string) {
    forall i :: 0 <= i < |g| ==> IsHexDigit(g[i])
  }

  /** The decimal value of a string of digits. */
  function DecimalValue(g: string): nat
    requires AllDigits(g)
  {
    if g == [] then 0
    else DecimalValue(g[..|g| - 1]) * 10 + (g[|g| - 1] as int - '0' as int)
  }

  /** One octet of the IPv4 pattern, alternative by alternative:
      `25[0-5]`, `2[0-4][0-9]` and `[01]?[0-9][0-9]?`. */
  predicate Ipv4Octet(g: string)
    ensures Ipv4Octet(g) ==> 1 <= |g| <= 3 && AllDigits(g) && '.' !in g
  {
    || (|g| == 3 && g[0] == '2' && g[1] == '5' && '0' <= g[2] <= '5')
    || (|g| == 3 && g[0] == '2' && '0' <= g[1] <= '4' && IsDigit(g[2]))
    || (|g| == 3 && (g[0] == '0' || g[0] == '1') && IsDigit(g[1]) && IsDigit(g[2]))
    || (|g| == 2 && (g[0] == '0' || g[0] == '1') && IsDigit(g[1]))
    || (|g| == 2 && IsDigit(g[0]) && IsDigit(g[1]))
    || (|g| == 1 && IsDigit(g[0]))
  }

  /** The octet pattern accepts exactly the strings of one to three digits
      whose value is at most 255; leading zeros are allowed. */
  lemma Ipv4OctetMeaning(g: string)
    ensures Ipv4Octet(g) <==> 1 <= |g| <= 3 && AllDigits(g) && DecimalValue(g) <= 255
  {
    if 1 <= |g| <= 3 && AllDigits(g) {
      var d := seq(|g|, i requires 0 <= i < |g| => g[i] as int - '0' as int);
      assert DecimalValue(g[..0]) == 0;
      assert g[..1][..0] == g[..0];
      assert DecimalValue(g[..1]) == d[0];
      if |g| >= 2 {
        assert g[..2][..1] == g[..1];
        assert DecimalValue(g[..2]) == d[0] * 10 + d[1];
      }
      if |g| == 3 {
        assert g[..3] == g;
        assert DecimalValue(g) == d[0] * 100 + d[1] * 10 + d[2];
      } else if |g| == 2 {
        assert g[..2] == g;
      } else {
        assert g[..1] == g;
      }
    }
  }

  /** One group of the IPv6 pattern: `[0-9a-fA-F]{1,4}`. */
  predicate Ipv6Group(g: string) {
    1 <= |g| <= 4 && AllHexDigits(g)
  }

  /** `^(?:octet\.){3}octet$`: since no octet contains a dot, this is
      "four dot-separated fields, each an octet". An accepted address is 7 to
      15 characters long. */
  predicate IsIPv4(s: string)
    ensures IsIPv4(s) ==> 7 <= |s| <= 15 && '.' in s
  {
    OctetFieldsFacts(s);
    var fields := Split(s, '.');
    |fields| == 4 && forall i :: 0 <= i < 4 ==> Ipv4Octet(fields[i])
  }

  /** `^(?:[0-9a-fA-F]{1,4}:){7}[0-9a-fA-F]{1,4}$`: eight colon-separated
      groups of one to four hexadecimal digits. An accepted address is 15 to
      39 characters long and holds colons but no dot. */
  predicate IsIPv6(s: string)
    ensures IsIPv6(s) ==> 15 <= |s| <= 39 && ':' in s && '.' !in s
  {
    HexGroupsFacts(s);
    var groups := Split(s, ':');
    |groups| == 8 && forall i :: 0 <= i < 8 ==> Ipv6Group(groups[i])
  }

  /** isValidIP(ip): an accepted address is 7 to 39 characters long, and it
      is taken as IPv4 exactly when it holds a dot. */
  predicate IsValidIP(ip: string)
    ensures IsValidIP(ip) ==> 7 <= |ip| <= 39
    ensures IsValidIP(ip) ==> (IsIPv4(ip) <==> '.' in ip)
  {
    IsIPv4(ip) || IsIPv6(ip)
  }

  /** The total number of characters in `parts`. */
  function TotalLength(parts: seq<string>): nat {
    if parts == [] then 0 else |parts[0]| + TotalLength(parts[1..])
  }

  lemma {:induction false} TotalLengthBounds(parts: seq<string>, lo: nat, hi: nat)
    requires forall i :: 0 <= i < |parts| ==> lo <= |parts[i]| <= hi
    ensures lo * |parts| <= TotalLength(parts) <= hi * |parts|
  {
    if parts != [] {
      TotalLengthBounds(parts[1..], lo, hi);
      assert lo * |parts| == lo + lo * |parts[1..]|;
      assert hi * |parts| == hi + hi * |parts[1..]|;
    }
  }

  lemma {:induction false} JoinLength(parts: seq<string>, sep: char)
    requires |parts| >= 1
    ensures |Join(parts, sep)| == TotalLength(parts) + |parts| - 1
    decreases |parts|
  {
    if |parts| > 1 {
      JoinLength(parts[1..], sep);
    }
  }

  /** A character that is neither the separator nor in any field is not in the join. */
  lemma {:induction false} JoinAvoids(parts: seq<string>, sep: char, c: char)
    requires |parts| >= 1
    requires c != sep && forall i :: 0 <= i < |parts| ==> c !in parts[i]
    ensures c !in Join(parts, sep)
    decreases |parts|
  {
    if |parts| > 1 {
      JoinAvoids(parts[1..], sep, c);
    }
  }

  /** A string without the separator splits into itself alone. */
  lemma {:induction false} SplitWithoutSeparator(s: string, sep: char)
    requires sep !in s
    ensures Split(s, sep) == [s]
    decreases |s|
  {
    if s != [] {
      assert s[0] in s;
      assert forall c :: c in s[1..] ==> c in s;
      SplitWithoutSeparator(s[1..], sep);
      assert [s[0]] + s[1..] == s;
    }
  }

  lemma OctetFieldsFacts(s: string)
    ensures var fields := Split(s, '.');
            |fields| == 4 && (forall i :: 0 <= i < 4 ==> Ipv4Octet(fields[i])) ==>
              7 <= |s| <= 15 && '.' in s
  {
    var fields := Split(s, '.');
    if |fields| == 4 && forall i :: 0 <= i < 4 ==> Ipv4Octet(fields[i]) {
      JoinSplit(s, '.');
      JoinLength(fields, '.');
      TotalLengthBounds(fields, 1, 3);
      if '.' !in s {
        SplitWithoutSeparator(s, '.');
      }
    }
  }

  lemma HexGroupsFacts(s: string)
    ensures var groups := Split(s, ':');
            |groups| == 8 && (forall i :: 0 <= i < 8 ==> Ipv6Group(groups[i])) ==>
              15 <= |s| <= 39 && ':' in s && '.' !in s
  {
    var groups := Split(s, ':');
    if |groups| == 8 && forall i :: 0 <= i < 8 ==> Ipv6Group(groups[i]) {
      JoinSplit(s, ':');
      JoinLength(groups, ':');
      TotalLengthBounds(groups, 1, 4);
      if ':' !in s {
        SplitWithoutSeparator(s, ':');
      }
      forall i | 0 <= i < 8 ensures '.' !in groups[i] {
        forall k | 0 <= k < |groups[i]| ensures groups[i][k] != '.' {
          assert IsHexDigit(groups[i][k]);
        }
      }
      JoinAvoids(groups, ':', '.');
    }
  }

  /** An IPv4 candidate is refused as soon as one of its dot-separated fields
      is a number above 255. */
  lemma LargeOctetRejected(s: string, i: nat)
    requires i < |Split(s, '.')|
    requires AllDigits(Split(s, '.')[i]) && DecimalValue(Split(s, '.')[i]) > 255
    ensures !IsIPv4(s)
  {
    Ipv4OctetMeaning(Split(s, '.')[i]);
  }

  /** The "::" shorthand of IPv6 is refused: every accepted address has
      exactly eight non-empty groups. */
  lemma DoubleColonRejected(s: string, i: nat)
    requires i + 1 < |s| && s[i] == ':' && s[i + 1] == ':'
    ensures !IsIPv6(s)
  {
    if IsIPv6(s) {
      var groups := Split(s, ':');
      JoinSplit(s, ':');
      JoinHasNoEmptyField(groups, ':', i);
      assert false;
    }
  }

  /** The decimal digits of a natural number, without leading zeros. */
  function Decimal(n: nat): (g: string)
    ensures 1 <= |g|
    ensures AllDigits(g) && DecimalValue(g) == n
    ensures n < 10 ==> |g| == 1
    ensures n < 100 ==> |g| <= 2
    ensures n < 1000 ==> |g| <= 3
  {
    var last := [('0' as int + n % 10) as char];
    if n < 10 then
      assert DecimalValue(last) == n by { assert last[..0] == []; }
      last
    else
      var g := Decimal(n / 10) + last;
      assert g[..|g| - 1] == Decimal(n / 10);
      g
  }

  /** The decimal renderings of a list of numbers, in order. */
  function DecimalFields(ns: seq<nat>): (fields: seq<string>)
    ensures |fields| == |ns|
    ensures forall i :: 0 <= i < |ns| ==> fields[i] == Decimal(ns[i])
  {
    seq(|ns|, i requires 0 <= i < |ns| => Decimal(ns[i]))
  }

  /** Every dotted quad of numbers 0..255 written in decimal is accepted. */
  lemma DottedQuadAccepted(ns: seq<nat>)
    requires |ns| == 4
    requires forall i :: 0 <= i < 4 ==> ns[i] <= 255
    ensures IsValidIP(Join(DecimalFields(ns), '.'))
  {
    var fields := DecimalFields(ns);
    forall i | 0 <= i < 4
      ensures '.' !in fields[i] && Ipv4Octet(fields[i])
    {
      DecimalIsOctet(Decimal(ns[i]));
    }
    FourOctetsAccepted(fields);
  }

  /** Four dot-free octets joined with dots form an accepted IPv4 address. */
  lemma FourOctetsAccepted(fields: seq<string>)
    requires |fields| == 4
    requires forall i :: 0 <= i < 4 ==> '.' !in fields[i] && Ipv4Octet(fields[i])
    ensures IsIPv4(Join(fields, '.')) && IsValidIP(Join(fields, '.'))
  {
    SplitJoin(fields, '.');
  }

  /** A decimal rendering of 0..255 is an octet and holds no dot. */
  lemma DecimalIsOctet(g: string)
    requires 1 <= |g| <= 3 && AllDigits(g) && DecimalValue(g) <= 255
    ensures '.' !in g && Ipv4Octet(g)
  {
    Ipv4OctetMeaning(g);
    forall k | 0 <= k < |g| ensures g[k] != '.' {
      assert IsDigit(g[k]);
    }
  }

  // ---------------------------------------------------------------------------
  // isValidMAC
  // ---------------------------------------------------------------------------

  predicate IsMacSeparator(c: char) {
    c == ':' || c == '-'
  }

  /** `([0-9A-Fa-f]{2}[:-]){n}[0-9A-Fa-f]{2}`, read left to right. */
  predicate MacGroups(s: string, n: nat)
    decreases n
  {
    if n == 0 then |s| == 2 && IsHexDigit(s[0]) && IsHexDigit(s[1])
    else
      && |s| >= 3
      && IsHexDigit(s[0]) && IsHexDigit(s[1]) && IsMacSeparator(s[2])
      && MacGroups(s[3..], n - 1)
  }

  /** isValidMAC(mac): `^([0-9A-Fa-f]{2}[:-]){5}([0-9A-Fa-f]{2})$`. An
      accepted address is 17 characters long: six pairs of hex digits with a
      ':' or '-' after each of the first five. */
  predicate IsValidMAC(mac: string)
    ensures IsValidMAC(mac) <==> MacShape(mac, 5)
    ensures IsValidMAC(mac) ==> |mac| == 17
  {
    MacGroupsShape(mac, 5);
    MacGroups(mac, 5)
  }

  /** Character by character: every third character is a separator, chosen
      independently of the others, and the rest are hexadecimal digits. */
  predicate MacShape(s: string, n: nat) {
    && |s| == 3 * n + 2
    && forall i :: 0 <= i < |s| ==> (if i % 3 == 2 then IsMacSeparator(s[i]) else IsHexDigit(s[i]))
  }

  lemma {:induction false} MacGroupsShape(s: string, n: nat)
    ensures MacGroups(s, n) <==> MacShape(s, n)
    decreases n
  {
    if n > 0 && |s| >= 3 {
      MacGroupsShape(s[3..], n - 1);
      if MacShape(s, n) {
        forall i | 0 <= i < |s[3..]|
          ensures if i % 3 == 2 then IsMacSeparator(s[3..][i]) else IsHexDigit(s[3..][i])
        {
          assert s[3..][i] == s[i + 3] && (i + 3) % 3 == i % 3;
        }
      }
      if MacGroups(s, n) {
        forall i | 0 <= i < |s|
          ensures if i % 3 == 2 then IsMacSeparator(s[i]) else IsHexDigit(s[i])
        {
          if i >= 3 {
            assert s[i] == s[3..][i - 3] && (i - 3) % 3 == i % 3;
          }
        }
      }
    }
  }

  /** Separators need not agree: a mixture of ':' and '-' is accepted. */
  lemma MixedSeparatorsAccepted()
    ensures IsValidMAC("00:1B-44:11-3A:B7")
  {
    var mac := "00:1B-44:11-3A:B7";
    assert MacShape(mac, 5);
  }
}
