/**
 * The string utilities of the price-watch bot (src/utils.ts): reading a
 * scraped price, printing a price with thousands separators, turning a
 * vendor location into an in-game navigation command, and rendering the
 * list of tracked items.
 */
module Utils {
  import opened Wrappers
  import opened Records

  // ---------------------------------------------------------------------
  // Decimal digits and numbers as text
  // ---------------------------------------------------------------------

  predicate IsDigit(c: char) { '0' <= c <= '9' }

  predicate AllDigits(s: string) { forall i :: 0 <= i < |s| ==> IsDigit(s[i]) }

  function DigitChar(d: nat): (c: char)
    requires d < 10
    ensures IsDigit(c)
  {
    ('0' as int + d) as char
  }

  function DigitValue(c: char): (d: nat)
    requires IsDigit(c)
    ensures d < 10 && DigitChar(d) == c
  {
    c as int - '0' as int
  }

  /** The value of a string of decimal digits, most significant digit first. */
  function DigitsValue(s: string): nat
    requires AllDigits(s)
    decreases |s|
  {
    if s == [] then 0 else DigitsValue(s[..|s| - 1]) * 10 + DigitValue(s[|s| - 1])
  }

  /** `n.toString()` for a natural number: its decimal digits, no leading zero. */
  function NatToString(n: nat): (s: string)
    ensures |s| > 0 && AllDigits(s)
    ensures |s| > 1 ==> s[0] != '0'
    decreases n
  {
    if n < 10 then [DigitChar(n)] else NatToString(n / 10) + [DigitChar(n % 10)]
  }

  /** `n.toString()` (or `${n}`) for an integer. */
  function IntToString(n: int): string
  {
    if n < 0 then "-" + NatToString(-n) else NatToString(n)
  }

  lemma {:induction false} NatToStringValue(n: nat)
    ensures DigitsValue(NatToString(n)) == n
    decreases n
  {
    if n >= 10 {
      NatToStringValue(n / 10);
      var s := NatToString(n);
      assert s[..|s| - 1] == NatToString(n / 10);
    }
  }

  lemma {:induction false} NatToStringShort(n: nat)
    requires n < 1000
    ensures |NatToString(n)| <= 3
  {
    if n >= 100 {
      assert |NatToString(n / 10 / 10)| == 1;
      assert |NatToString(n / 10)| == 2;
    } else if n >= 10 {
      assert |NatToString(n / 10)| == 1;
    }
  }

  // ---------------------------------------------------------------------
  // sanitizePrice: `parseInt(price.replace(/[^0-9.]/g, ''))`
  // ---------------------------------------------------------------------

  /** The characters the price filter keeps. */
  predicate KeptInPrice(c: char) { IsDigit(c) || c == '.' }

  /** `price.replace(/[^0-9.]/g, '')`: drops every character but digits and dots. */
  function StripNonPrice(s: string): (r: string)
    ensures forall i :: 0 <= i < |r| ==> KeptInPrice(r[i])
    ensures |r| <= |s|
    decreases |s|
  {
    if s == [] then []
    else (if KeptInPrice(s[0]) then [s[0]] else []) + StripNonPrice(s[1..])
  }

  /** The filter keeps exactly the digits and dots, and text made only of those is kept whole. */
  lemma {:induction false} StripNonPriceKeeps(s: string)
    ensures forall c :: c in StripNonPrice(s) <==> c in s && KeptInPrice(c)
    ensures (forall i :: 0 <= i < |s| ==> KeptInPrice(s[i])) ==> StripNonPrice(s) == s
    decreases |s|
  {
    if s != [] {
      StripNonPriceKeeps(s[1..]);
      assert forall c :: c in s <==> c == s[0] || c in s[1..];
      assert s == [s[0]] + s[1..];
    }
  }

  lemma {:induction false} StripNonPriceAppend(a: string, b: string)
    ensures StripNonPrice(a + b) == StripNonPrice(a) + StripNonPrice(b)
    decreases |a|
  {
    if a != [] {
      assert (a + b)[0] == a[0];
      assert (a + b)[1..] == a[1..] + b;
      StripNonPriceAppend(a[1..], b);
    } else {
      assert a + b == b;
    }
  }

  /** The longest prefix of `s` made of decimal digits. */
  function LeadingDigits(s: string): (r: string)
    ensures AllDigits(r) && r <= s
    ensures |r| < |s| ==> !IsDigit(s[|r|])
    decreases |s|
  {
    if s == [] || !IsDigit(s[0]) then [] else [s[0]] + LeadingDigits(s[1..])
  }

  /**
   * `parseInt(t)` on a string of digits and dots (the only strings the
   * price filter produces): the value of the leading run of digits, or
   * `None` (NaN) when there is none.
   */
  function ParseLeadingInt(t: string): Option<nat>
  {
    var d := LeadingDigits(t);
    if d == [] then None else Some(DigitsValue(d))
  }

  /** `sanitizePrice(price)`; `None` stands for NaN. */
  function SanitizePrice(price: string): Option<nat>
  {
    ParseLeadingInt(StripNonPrice(price))
  }

  lemma {:induction false} LeadingDigitsOfDigits(d: string, t: string)
    requires AllDigits(d)
    requires t == [] || !IsDigit(t[0])
    ensures LeadingDigits(d + t) == d
    decreases |d|
  {
    if d != [] {
      assert (d + t)[1..] == d[1..] + t;
      LeadingDigitsOfDigits(d[1..], t);
    }
  }

  /** The price is NaN exactly when the filtered text is empty or starts with a dot. */
  lemma {:induction false} SanitizePriceUndefined(price: string)
    ensures SanitizePrice(price) == None <==>
      (StripNonPrice(price) == [] || StripNonPrice(price)[0] == '.')
  {
  }

  /** A dot ends the number: the digits before the first kept dot are the price. */
  lemma {:induction false} SanitizePriceStopsAtDot(price: string, digits: string, rest: string)
    requires AllDigits(digits) && digits != []
    requires StripNonPrice(price) == digits + "." + rest
    ensures SanitizePrice(price) == Some(DigitsValue(digits))
  {
    assert digits + "." + rest == digits + ("." + rest);
    LeadingDigitsOfDigits(digits, "." + rest);
  }

  /** The digits of `s`, in order. */
  function OnlyDigits(s: string): (r: string)
    ensures AllDigits(r)
    decreases |s|
  {
    if s == [] then [] else (if IsDigit(s[0]) then [s[0]] else []) + OnlyDigits(s[1..])
  }

  /**
   * On text without a dot, the price is the number formed by all of its
   * digits, whatever noise surrounds them; with no digit at all it is NaN.
   */
  lemma {:induction false} SanitizePriceWithoutDot(price: string)
    requires '.' !in price
    ensures StripNonPrice(price) == OnlyDigits(price)
    ensures SanitizePrice(price) ==
      if OnlyDigits(price) == [] then None else Some(DigitsValue(OnlyDigits(price)))
    decreases |price|
  {
    if price != [] {
      assert price == [price[0]] + price[1..];
      SanitizePriceWithoutDot(price[1..]);
    }
    LeadingDigitsOfDigits(OnlyDigits(price), []);
    assert OnlyDigits(price) + [] == OnlyDigits(price);
  }

  lemma {:induction false} SanitizePriceIgnoresNoise()
    ensures SanitizePrice("1,234z") == Some(1234)
  {
    assert StripNonPrice("1,234z") == "1234";
    assert NatToString(1234) == "1234";
    NatToStringValue(1234);
    LeadingDigitsOfDigits("1234", []);
    assert "1234" + [] == "1234";
  }

  lemma {:induction false} SanitizePriceDotExample()
    ensures SanitizePrice("1.500") == Some(1)
  {
  }

  // ---------------------------------------------------------------------
  // formatPrice: `price.toString().replace(/\B(?=(\d{3})+(?!\d))/g, ',')`
  // ---------------------------------------------------------------------

  /**
   * The regular expression applied to a string `d` of digits, from position
   * `i` on: a comma goes before `d[j]` exactly when `j` is not the start
   * (`\B` between two digits) and the number of digits from `j` to the end
   * is a positive multiple of three.
   */
  function Commafy(d: string, i: nat): string
    requires i <= |d|
    decreases |d| - i
  {
    if i == |d| then "" else Separator(|d|, i) + ([d[i]] + Commafy(d, i + 1))
  }

  /** What the regular expression inserts before position `i` of an `n`-digit string. */
  function Separator(n: nat, i: nat): string
  {
    if 0 < i && (n - i) % 3 == 0 then "," else ""
  }

  function FormatDigits(d: string): string
  {
    Commafy(d, 0)
  }

  /**
   * `formatPrice(n)`. A minus sign and the first digit are separated by a
   * word boundary, so `\B` never places a comma right after the sign.
   */
  function FormatPrice(n: int): string
  {
    if n < 0 then "-" + FormatDigits(NatToString(-n)) else FormatDigits(NatToString(n))
  }

  /** `Commafy` places no comma when no position from `i` on qualifies. */
  lemma {:induction false} CommafyPlain(d: string, i: nat)
    requires i <= |d| && |d| - i <= 3
    requires |d| - i == 3 ==> i == 0
    ensures Commafy(d, i) == d[i..]
    decreases |d| - i
  {
    if i < |d| {
      CommafyPlain(d, i + 1);
      assert d[i..] == [d[i]] + d[i + 1..];
    }
  }

  /** Lengthening the text by a multiple of three keeps the separator before every position. */
  lemma {:induction false} SeparatorShift(n: nat, m: nat, i: nat)
    requires i <= n && m % 3 == 0
    ensures Separator(n + m, i) == Separator(n, i)
  {
    var q := m / 3;
    assert m == 3 * q;
    assert n + m - i == (n - i) + 3 * q;
    assert (n + m - i) % 3 == (n - i) % 3;
  }

  /** Appending a multiple of three digits leaves the commas of the front part in place. */
  lemma {:induction false} CommafySplit(p: string, t: string, i: nat)
    requires i <= |p| && |t| % 3 == 0
    ensures Commafy(p + t, i) == Commafy(p, i) + Commafy(p + t, |p|)
    decreases |p| - i
  {
    if i < |p| {
      var d := p + t;
      var sep, tail := Separator(|p|, i), Commafy(d, |p|);
      assert d[i] == p[i];
      calc {
        Commafy(d, i);
        Separator(|d|, i) + ([d[i]] + Commafy(d, i + 1));
        { SeparatorShift(|p|, |t|, i); }
        sep + ([p[i]] + Commafy(d, i + 1));
        { CommafySplit(p, t, i + 1); }
        sep + ([p[i]] + (Commafy(p, i + 1) + tail));
        { SeqAssoc3(sep, [p[i]], Commafy(p, i + 1), tail); }
        (sep + ([p[i]] + Commafy(p, i + 1))) + tail;
        Commafy(p, i) + tail;
      }
    }
  }

  lemma SeqAssoc3(a: string, b: string, c: string, e: string)
    ensures a + (b + (c + e)) == (a + (b + c)) + e
  {
  }

  /** The right-to-left reading of the regular expression: one comma per full group of three. */
  lemma {:induction false} FormatDigitsAppend(p: string, t: string)
    requires |p| > 0 && |t| == 3
    ensures FormatDigits(p + t) == FormatDigits(p) + "," + t
  {
    var d := p + t;
    CommafySplit(p, t, 0);
    CommafyPlain(d, |p| + 1);
    assert d[|p| + 1..] == t[1..];
    assert Commafy(d, |p|) == "," + [t[0]] + t[1..];
    assert [t[0]] + t[1..] == t;
  }

  lemma {:induction false} FormatDigitsShort(d: string)
    requires |d| <= 3
    ensures FormatDigits(d) == d
  {
    CommafyPlain(d, 0);
  }

  /** Removes every comma. */
  function RemoveCommas(s: string): (r: string)
    ensures ',' !in r
    decreases |s|
  {
    if s == [] then [] else (if s[0] == ',' then [] else [s[0]]) + RemoveCommas(s[1..])
  }

  lemma {:induction false} RemoveCommasAppend(a: string, b: string)
    ensures RemoveCommas(a + b) == RemoveCommas(a) + RemoveCommas(b)
    decreases |a|
  {
    if a != [] {
      assert (a + b)[0] == a[0];
      assert (a + b)[1..] == a[1..] + b;
      RemoveCommasAppend(a[1..], b);
    } else {
      assert a + b == b;
    }
  }

  /** A separator is a comma or nothing: removing commas leaves nothing. */
  lemma {:induction false} RemoveCommasSeparator(n: nat, i: nat)
    ensures RemoveCommas(Separator(n, i)) == []
  {
    var sep := Separator(n, i);
    if sep != [] {
      assert sep[1..] == [];
    }
  }

  /** Removing commas keeps any other single character. */
  lemma {:induction false} RemoveCommasOther(c: char)
    requires c != ','
    ensures RemoveCommas([c]) == [c]
  {
    assert [c][1..] == [];
  }

  lemma {:induction false} CommafyRemoveCommas(d: string, i: nat)
    requires i <= |d| && AllDigits(d)
    ensures RemoveCommas(Commafy(d, i)) == d[i..]
    decreases |d| - i
  {
    if i < |d| {
      var sep, rest := Separator(|d|, i), Commafy(d, i + 1);
      assert IsDigit(d[i]);
      calc {
        RemoveCommas(Commafy(d, i));
        RemoveCommas(sep + ([d[i]] + rest));
        { RemoveCommasAppend(sep, [d[i]] + rest); RemoveCommasSeparator(|d|, i); }
        RemoveCommas([d[i]] + rest);
        { RemoveCommasAppend([d[i]], rest); RemoveCommasOther(d[i]); }
        [d[i]] + RemoveCommas(rest);
        { CommafyRemoveCommas(d, i + 1); }
        [d[i]] + d[i + 1..];
        d[i..];
      }
    }
  }

  /** A separator is all punctuation: the filter drops it. */
  lemma {:induction false} StripNonPriceSeparator(n: nat, i: nat)
    ensures StripNonPrice(Separator(n, i)) == []
  {
    var sep := Separator(n, i);
    if sep != [] {
      assert sep[1..] == [];
    }
  }

  /** The filter keeps a single digit. */
  lemma {:induction false} StripNonPriceDigit(c: char)
    requires IsDigit(c)
    ensures StripNonPrice([c]) == [c]
  {
    assert [c][1..] == [];
  }

  lemma {:induction false} CommafyStripNonPrice(d: string, i: nat)
    requires i <= |d| && AllDigits(d)
    ensures StripNonPrice(Commafy(d, i)) == d[i..]
    decreases |d| - i
  {
    if i < |d| {
      var sep, rest := Separator(|d|, i), Commafy(d, i + 1);
      assert IsDigit(d[i]);
      calc {
        StripNonPrice(Commafy(d, i));
        StripNonPrice(sep + ([d[i]] + rest));
        { StripNonPriceAppend(sep, [d[i]] + rest); StripNonPriceSeparator(|d|, i); }
        StripNonPrice([d[i]] + rest);
        { StripNonPriceAppend([d[i]], rest); StripNonPriceDigit(d[i]); }
        [d[i]] + StripNonPrice(rest);
        { CommafyStripNonPrice(d, i + 1); }
        [d[i]] + d[i + 1..];
        d[i..];
      }
    }
  }

  /** Removing the separators from `formatPrice(n)` gives back `n.toString()`. */
  lemma {:induction false} FormatPriceRemoveCommas(n: int)
    ensures RemoveCommas(FormatPrice(n)) == IntToString(n)
  {
    var digits := NatToString(if n < 0 then -n else n);
    CommafyRemoveCommas(digits, 0);
    if n < 0 {
      RemoveCommasAppend("-", FormatDigits(digits));
    }
  }

  /**
   * A comma sits exactly at the positions that are not the first and lie a
   * multiple of four characters from the end; every other character is a
   * digit.
   */
  predicate GroupedByThousands(r: string)
  {
    forall i :: 0 <= i < |r| ==>
      (r[i] == ',' <==> 0 < i && (|r| - i) % 4 == 0) && (r[i] != ',' ==> IsDigit(r[i]))
  }

  lemma {:induction false} GroupedByThousandsAppend(rp: string, t: string)
    requires rp != [] && GroupedByThousands(rp) && AllDigits(t) && |t| == 3
    ensures GroupedByThousands(rp + "," + t)
  {
    var r := rp + "," + t;
    forall i | 0 <= i < |r|
      ensures (r[i] == ',' <==> 0 < i && (|r| - i) % 4 == 0) && (r[i] != ',' ==> IsDigit(r[i]))
    {
      if i < |rp| {
        assert r[i] == rp[i];
        assert |r| - i == (|rp| - i) + 4;
      } else if i == |rp| {
        assert r[i] == ',';
        assert |r| - i == 4;
      } else {
        assert r[i] == t[i - |rp| - 1];
        assert 1 <= |r| - i <= 3;
      }
    }
  }

  /**
   * The grouping of `formatPrice` on a digit string: commas as in
   * `GroupedByThousands`, one per full group of three below the leading
   * group. So the leading group has one to three digits and every later
   * group exactly three.
   */
  lemma {:induction false} FormatDigitsShape(d: string)
    requires AllDigits(d) && d != []
    ensures var r := FormatDigits(d);
      |r| == |d| + (|d| - 1) / 3 && GroupedByThousands(r)
    decreases |d|
  {
    if |d| <= 3 {
      FormatDigitsShort(d);
      assert forall i :: 0 <= i < |d| ==> IsDigit(d[i]);
    } else {
      var p, t := d[..|d| - 3], d[|d| - 3..];
      assert d == p + t;
      assert AllDigits(p) && AllDigits(t);
      FormatDigitsShape(p);
      FormatDigitsAppend(p, t);
      GroupedByThousandsAppend(FormatDigits(p), t);
    }
  }

  /** Below 1000 (and above -1000) the number is printed unchanged. */
  lemma {:induction false} FormatPriceSmall(n: int)
    requires -1000 < n < 1000
    ensures FormatPrice(n) == IntToString(n)
  {
    var m: nat := if n < 0 then -n else n;
    NatToStringShort(m);
    FormatDigitsShort(NatToString(m));
  }

  /** The price printed in an alert, followed by the "z" currency sign, reads back as the price. */
  lemma {:induction false} FormatSanitizeRoundTrip(n: nat)
    ensures SanitizePrice(FormatPrice(n) + "z") == Some(n)
  {
    var digits := NatToString(n);
    CommafyStripNonPrice(digits, 0);
    StripNonPriceAppend(FormatDigits(digits), "z");
    assert StripNonPrice("z") == [];
    assert StripNonPrice(FormatPrice(n) + "z") == digits + [];
    LeadingDigitsOfDigits(digits, []);
    assert digits + [] == digits;
    NatToStringValue(n);
  }

  lemma {:induction false} FormatPriceSmallExample()
    ensures FormatPrice(42) == "42"
  {
    FormatPriceSmall(42);
  }

  lemma {:induction false} FormatPriceMillionExample()
    ensures FormatPrice(1234567) == "1,234,567"
  {
    assert NatToString(12) == "12";
    assert NatToString(123) == "123";
    assert NatToString(1234) == "1234";
    assert NatToString(12345) == "12345";
    assert NatToString(123456) == "123456";
    assert NatToString(1234567) == "1234567";
    FormatDigitsShort("1");
    FormatDigitsAppend("1", "234");
    FormatDigitsAppend("1234", "567");
  }

  // ---------------------------------------------------------------------
  // extractMapPosition
  // ---------------------------------------------------------------------

  /** `pat` occurs in `s` starting at index `j`. */
  predicate OccursAt(s: string, pat: string, j: nat)
  {
    j + |pat| <= |s| && s[j..j + |pat|] == pat
  }

  ghost predicate Contains(s: string, pat: string)
  {
    exists j: nat :: OccursAt(s, pat, j)
  }

  /** `s.indexOf(pat, i)` for `i <= |s|`. */
  function IndexOfFrom(s: string, pat: string, i: nat): (r: int)
    requires i <= |s|
    ensures r == -1 || (i <= r && OccursAt(s, pat, r))
    ensures r == -1 ==> forall j: nat :: i <= j ==> !OccursAt(s, pat, j)
    ensures r != -1 ==> forall j: nat :: i <= j < r ==> !OccursAt(s, pat, j)
    decreases |s| - i
  {
    if OccursAt(s, pat, i) then i
    else if i == |s| then -1
    else IndexOfFrom(s, pat, i + 1)
  }

  /** `s.indexOf(pat)`: the first index where `pat` occurs, or -1. */
  function IndexOf(s: string, pat: string): (r: int)
    ensures r > -1 <==> Contains(s, pat)
    ensures r > -1 ==> OccursAt(s, pat, r) && forall j: nat :: j < r ==> !OccursAt(s, pat, j)
  {
    IndexOfFrom(s, pat, 0)
  }

  /** `s.split(sep)` for a one-character separator. */
  function Split(s: string, sep: char): (fields: seq<string>)
    ensures |fields| > 0
    ensures forall k :: 0 <= k < |fields| ==> sep !in fields[k]
    decreases |s|
  {
    if s == [] then [[]]
    else if s[0] == sep then [[]] + Split(s[1..], sep)
    else
      var rest := Split(s[1..], sep);
      [[s[0]] + rest[0]] + rest[1..]
  }

  /** `fields.join(sep)`. */
  function Join(fields: seq<string>, sep: char): string
    decreases |fields|
  {
    if fields == [] then [] else if |fields| == 1 then fields[0]
    else fields[0] + [sep] + Join(fields[1..], sep)
  }

  lemma {:induction false} JoinSplit(s: string, sep: char)
    ensures Join(Split(s, sep), sep) == s
    decreases |s|
  {
    if s != [] {
      JoinSplit(s[1..], sep);
      var rest := Split(s[1..], sep);
      if s[0] == sep {
        assert Split(s, sep)[1..] == rest;
      } else {
        var fields := Split(s, sep);
        assert fields[1..] == rest[1..];
        if |rest| > 1 {
          assert Join(rest, sep) == rest[0] + [sep] + Join(rest[1..], sep);
        }
      }
    }
  }

  lemma {:induction false} SplitJoin(fields: seq<string>, sep: char)
    requires |fields| > 0
    requires forall k :: 0 <= k < |fields| ==> sep !in fields[k]
    ensures Split(Join(fields, sep), sep) == fields
    decreases |fields|, |fields[0]|
  {
    var f := fields[0];
    if f == [] {
      if |fields| > 1 {
        var tail := Join(fields[1..], sep);
        assert Join(fields, sep) == [sep] + tail;
        assert ([sep] + tail)[1..] == tail;
        SplitJoin(fields[1..], sep);
        assert fields == [[]] + fields[1..];
      }
    } else {
      var fields' := [f[1..]] + fields[1..];
      assert fields'[1..] == fields[1..];
      assert sep !in fields'[0];
      SplitJoin(fields', sep);
      var s := Join(fields, sep);
      if |fields| > 1 {
        assert s == [f[0]] + Join(fields', sep);
      } else {
        assert s == [f[0]] + f[1..];
      }
      assert s[1..] == Join(fields', sep);
      assert [f[0]] + f[1..] == f;
    }
  }

  /** `${fields[k]}`: JavaScript prints a missing array element as "undefined". */
  function FieldText(fields: seq<string>, k: nat): string
  {
    if k < |fields| then fields[k] else "undefined"
  }

  /** `extractMapPosition(webCoordenate)`. */
  function ExtractMapPosition(webCoordinate: string): string
  {
    var coordinate := if webCoordinate == [] then [] else webCoordinate[1..];
    if IndexOf(coordinate, "nova_vend") > -1 then
      var fields := Split(coordinate, ',');
      "@shopjump " + FieldText(fields, 1) + " " + FieldText(fields, 2)
    else
      "@navi " + coordinate
  }

  /**
   * A vending-area location: after the marker character the text is a
   * comma-separated list whose second and third fields are the coordinates;
   * further fields are ignored.
   */
  lemma {:induction false} ShopJumpUsesSecondAndThirdField(marker: char, fields: seq<string>)
    requires |fields| >= 3
    requires forall k :: 0 <= k < |fields| ==> ',' !in fields[k]
    requires Contains(Join(fields, ','), "nova_vend")
    ensures ExtractMapPosition([marker] + Join(fields, ',')) ==
      "@shopjump " + fields[1] + " " + fields[2]
  {
    var coordinate := Join(fields, ',');
    assert ([marker] + coordinate)[1..] == coordinate;
    SplitJoin(fields, ',');
  }

  /** Any other location becomes a navigation command on the text after the marker, verbatim. */
  lemma {:induction false} NaviKeepsRemainder(marker: char, remainder: string)
    requires !Contains(remainder, "nova_vend")
    ensures ExtractMapPosition([marker] + remainder) == "@navi " + remainder
  {
    assert ([marker] + remainder)[1..] == remainder;
  }


  /** A pattern holding a character the text lacks does not occur in it. */
  lemma {:induction false} NoOccurrence(s: string, pat: string, i: nat)
    requires i < |pat| && pat[i] !in s
    ensures !Contains(s, pat)
  {
    forall j: nat ensures !OccursAt(s, pat, j) {
      if j + |pat| <= |s| {
        assert s[j..j + |pat|][i] == s[j + i];
        assert s[j + i] in s;
      }
    }
  }

  /** The fields of the vending-area example, joined with commas. */
  lemma {:induction false} ShopJumpExampleFields()
    ensures Join(["nova_vend", "100", "200"], ',') == "nova_vend,100,200"
  {
    var fields := ["nova_vend", "100", "200"];
    assert fields[1..][1..] == ["200"];
    assert Join(fields[1..], ',') == "100" + [','] + "200";
  }

  /** The vending-area marker occurs at the start of the example's text. */
  lemma {:induction false} ShopJumpExampleOccurs()
    ensures Contains("nova_vend,100,200", "nova_vend")
  {
    var joined := "nova_vend,100,200";
    assert joined[0..9] == "nova_vend";
    assert OccursAt(joined, "nova_vend", 0);
  }

  /** The example's location text is the marker followed by those fields. */
  lemma {:induction false} ShopJumpExampleText()
    ensures ['#'] + Join(["nova_vend", "100", "200"], ',') == "#nova_vend,100,200"
  {
    ShopJumpExampleFields();
  }

  /** The command the example produces, assembled from its pieces. */
  lemma {:induction false} ShopJumpExampleReply()
    ensures "@shopjump " + "100" + " " + "200" == "@shopjump 100 200"
  {
    var r := "@shopjump " + "100" + " " + "200";
    assert |r| == 17;
    assert forall k :: 0 <= k < 17 ==> r[k] == "@shopjump 100 200"[k];
  }

  /** A vending-area location, worked through. */
  lemma {:induction false} ShopJumpExample()
    ensures ExtractMapPosition("#nova_vend,100,200") == "@shopjump 100 200"
  {
    var fields := ["nova_vend", "100", "200"];
    ShopJumpExampleFields();
    ShopJumpExampleOccurs();
    assert forall k :: 0 <= k < |fields| ==> ',' !in fields[k];
    ShopJumpUsesSecondAndThirdField('#', fields);
    ShopJumpExampleText();
    ShopJumpExampleReply();
  }

  /** The navigation example's location and command, assembled from their pieces. */
  lemma {:induction false} NaviExampleText()
    ensures ['#'] + "prontera,50,60" == "#prontera,50,60"
    ensures "@navi " + "prontera,50,60" == "@navi prontera,50,60"
  {
    var location, command := ['#'] + "prontera,50,60", "@navi " + "prontera,50,60";
    assert |location| == 15 && |command| == 20;
    assert forall k :: 0 <= k < 15 ==> location[k] == "#prontera,50,60"[k];
    assert forall k :: 0 <= k < 20 ==> command[k] == "@navi prontera,50,60"[k];
  }

  /** Any other location, worked through. */
  lemma {:induction false} NaviExample()
    ensures ExtractMapPosition("#prontera,50,60") == "@navi prontera,50,60"
  {
    var rest := "prontera,50,60";
    assert "nova_vend"[2] == 'v' && 'v' !in rest;
    NoOccurrence(rest, "nova_vend", 2);
    NaviKeepsRemainder('#', rest);
    NaviExampleText();
  }

  // ---------------------------------------------------------------------
  // listTrackedItems
  // ---------------------------------------------------------------------

  /** The first line of the listing: its column titles. */
  const ColumnTitles: string := "Name | ID | Price"
  const ListingHeader: string := ColumnTitles + "\n"

  /** The pieces of a template literal, joined. */
  function Concat(parts: seq<string>): string
    decreases |parts|
  {
    if parts == [] then [] else parts[0] + Concat(parts[1..])
  }

  /** `${item.itemName} | ${item.id} | ${formatPrice(item.wantedPrice)}z\n`. */
  function ItemLine(item: Tracking): string
  {
    Concat([if item.itemName.Some? then item.itemName.value else "undefined",
            " | ", IntToString(item.id), " | ", FormatPrice(item.wantedPrice), "z\n"])
  }

  /** The line of every item, in order. */
  function Lines(items: seq<Tracking>): string
    decreases |items|
  {
    if items == [] then "" else Lines(items[..|items| - 1]) + ItemLine(items[|items| - 1])
  }

  /**
   * What `listTrackedItems(items)` returns: the header, then the line of
   * each item in order.
   */
  function Listing(items: seq<Tracking>): string
  {
    ListingHeader + Lines(items)
  }

  /** `listTrackedItems`: appends one line per item to the header, in a loop. */
  method ListTrackedItems(items: seq<Tracking>) returns (message: string)
    ensures message == Listing(items)
  {
    message := ListingHeader;
    for i := 0 to |items|
      invariant message == Listing(items[..i])
    {
      ListingSnoc(items, i);
      message := message + ItemLine(items[i]);
    }
    assert items[..|items|] == items;
  }

  /** One more item appends its line to the listing. */
  lemma {:induction false} ListingSnoc(items: seq<Tracking>, i: nat)
    requires i < |items|
    ensures Listing(items[..i + 1]) == Listing(items[..i]) + ItemLine(items[i])
  {
    assert items[..i + 1][..i] == items[..i];
    calc {
      Listing(items[..i + 1]);
      ListingHeader + Lines(items[..i + 1]);
      ListingHeader + (Lines(items[..i]) + ItemLine(items[i]));
      (ListingHeader + Lines(items[..i])) + ItemLine(items[i]);
    }
  }

  lemma {:induction false} LinesAppend(a: seq<Tracking>, b: seq<Tracking>)
    ensures Lines(a + b) == Lines(a) + Lines(b)
    decreases |b|
  {
    if b != [] {
      var b' := b[..|b| - 1];
      assert (a + b)[..|a + b| - 1] == a + b';
      assert (a + b)[|a + b| - 1] == b[|b| - 1];
      LinesAppend(a, b');
    } else {
      assert a + b == a;
    }
  }

  /** Number of occurrences of `c` in `s`. */
  function Count(s: string, c: char): nat
    decreases |s|
  {
    if s == [] then 0 else (if s[0] == c then 1 else 0) + Count(s[1..], c)
  }

  lemma {:induction false} CountAppend(a: string, b: string, c: char)
    ensures Count(a + b, c) == Count(a, c) + Count(b, c)
    decreases |a|
  {
    if a != [] {
      assert (a + b)[0] == a[0];
      assert (a + b)[1..] == a[1..] + b;
      CountAppend(a[1..], b, c);
    } else {
      assert a + b == b;
    }
  }

  lemma {:induction false} CountNone(s: string, c: char)
    requires c !in s
    ensures Count(s, c) == 0
    decreases |s|
  {
    if s != [] {
      assert forall i :: 0 <= i < |s[1..]| ==> s[1..][i] == s[i + 1];
      CountNone(s[1..], c);
    }
  }

  lemma {:induction false} CountConcatLast(parts: seq<string>, c: char)
    requires |parts| > 0
    requires forall k :: 0 <= k < |parts| - 1 ==> c !in parts[k]
    ensures Count(Concat(parts), c) == Count(parts[|parts| - 1], c)
    decreases |parts|
  {
    if |parts| == 1 {
      assert parts[1..] == [];
      assert Concat(parts) == parts[0] + [];
      assert parts[0] + [] == parts[0];
    } else {
      CountConcatLast(parts[1..], c);
      CountAppend(parts[0], Concat(parts[1..]), c);
      CountNone(parts[0], c);
    }
  }

  lemma {:induction false} ItemLineHasOneNewline(item: Tracking)
    requires item.itemName.Some? ==> '\n' !in item.itemName.value
    ensures Count(ItemLine(item), '\n') == 1
  {
    NoNewlineInNumbers(item.id, item.wantedPrice);
    assert "undefined"[0] != '\n';
    CountConcatLast([if item.itemName.Some? then item.itemName.value else "undefined",
            " | ", IntToString(item.id), " | ", FormatPrice(item.wantedPrice), "z\n"], '\n');
  }

  lemma {:induction false} NoNewlineInNumbers(id: int, price: int)
    ensures '\n' !in IntToString(id) && '\n' !in FormatPrice(price)
  {
    var d := NatToString(if price < 0 then -price else price);
    FormatDigitsShape(d);
    var r := FormatDigits(d);
    assert forall i :: 0 <= i < |r| ==> r[i] != '\n';
    assert '\n' !in NatToString(if id < 0 then -id else id);
  }

  /** When no item name holds a line break, the listing has one line per item plus the header. */
  lemma {:induction false} ListingLineCount(items: seq<Tracking>)
    requires forall k :: 0 <= k < |items| && items[k].itemName.Some? ==> '\n' !in items[k].itemName.value
    ensures Count(Lines(items), '\n') == |items|
    decreases |items|
  {
    if items != [] {
      var init := items[..|items| - 1];
      ListingLineCount(init);
      ItemLineHasOneNewline(items[|items| - 1]);
      CountAppend(Lines(init), ItemLine(items[|items| - 1]), '\n');
    }
  }

  /** ... and the header adds one more line. */
  lemma {:induction false} ListingHasHeaderAndOneLinePerItem(items: seq<Tracking>)
    requires forall k :: 0 <= k < |items| && items[k].itemName.Some? ==> '\n' !in items[k].itemName.value
    ensures Count(Listing(items), '\n') == |items| + 1
  {
    ListingLineCount(items);
    CountAppend(ListingHeader, Lines(items), '\n');
    CountNone(ColumnTitles, '\n');
    CountAppend(ColumnTitles, "\n", '\n');
  }
}
