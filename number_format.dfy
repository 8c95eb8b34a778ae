/**
 * formatNumber (index.js:133-135): the decimal digits of a number with a '.'
 * inserted as a thousands separator. The regular expression
 * `(\d)(?=(\d{3})+(?!\d))` with the global flag matches, in a string of digits
 * only, each digit that is followed by a positive multiple of three further
 * digits; the replacement `$1.` puts a '.' after each such digit.
 */
module NumberFormat {
  import opened Decimal

  /** The global replacement applied to a string of digits. */
  function Group(d: string): string
  {
    if d == [] then []
    else [d[0]] + (if |d| > 1 && (|d| - 1) % 3 == 0 then "." else "") + Group(d[1..])
  }

  function FormatNumber(n: nat): string {
    Group(Digits(n))
  }

  /** The string with every '.' deleted. */
  function StripDots(s: string): string
  {
    if s == [] then [] else (if s[0] == '.' then [] else [s[0]]) + StripDots(s[1..])
  }

  /** The pieces of s between its dots, left to right. */
  function Groups(s: string): (g: seq<string>)
    ensures |g| >= 1
  {
    if s == [] then [[]]
    else
      var rest := Groups(s[1..]);
      if s[0] == '.' then [[]] + rest else [[s[0]] + rest[0]] + rest[1..]
  }

  lemma {:induction false} StripGroup(d: string)
    requires AllDigits(d)
    ensures StripDots(Group(d)) == d
  {
    if d != [] {
      var rest := Group(d[1..]);
      StripGroup(d[1..]);
      if |d| > 1 && (|d| - 1) % 3 == 0 {
        assert Group(d) == [d[0]] + ("." + rest);
        assert ("." + rest)[1..] == rest;
        assert StripDots("." + rest) == StripDots(rest);
      } else {
        assert Group(d) == [d[0]] + rest;
      }
      assert ([d[0]] + ((if |d| > 1 && (|d| - 1) % 3 == 0 then "." else "") + rest))[1..]
          == (if |d| > 1 && (|d| - 1) % 3 == 0 then "." else "") + rest;
    }
  }

  lemma {:induction false} GroupShape(d: string)
    requires |d| >= 1 && AllDigits(d)
    ensures |Groups(Group(d))| == (|d| - 1) / 3 + 1
    ensures |Groups(Group(d))[0]| == (|d| - 1) % 3 + 1
    ensures forall i :: 1 <= i < |Groups(Group(d))| ==> |Groups(Group(d))[i]| == 3
  {
    var rest := Group(d[1..]);
    assert IsDigit(d[0]);
    if |d| == 1 {
      assert Group(d) == [d[0]];
      assert [d[0]][1..] == [];
      var g0 := Groups([d[0]][1..]);
      assert g0 == [[]];
      assert [d[0]] + g0[0] == [d[0]];
      assert Groups([d[0]]) == [[d[0]] + g0[0]] + g0[1..];
    } else if (|d| - 1) % 3 == 0 {
      GroupShape(d[1..]);
      assert Group(d) == [d[0]] + ("." + rest);
      assert Group(d)[1..] == "." + rest;
      assert ("." + rest)[1..] == rest;
      assert Groups("." + rest) == [[]] + Groups(rest);
      assert Group(d)[0] == d[0];
      var g1 := Groups(Group(d)[1..]);
      assert g1 == [[]] + Groups(rest);
      assert [d[0]] + g1[0] == [d[0]];
      assert g1[1..] == Groups(rest);
      assert Groups(Group(d)) == [[d[0]] + g1[0]] + g1[1..];
    } else {
      GroupShape(d[1..]);
      assert Group(d) == [d[0]] + rest;
      assert Group(d)[1..] == rest;
    }
  }

  lemma {:induction false} DotIffSeveralGroups(s: string)
    ensures '.' in s <==> |Groups(s)| > 1
  {
    if s != [] {
      DotIffSeveralGroups(s[1..]);
      assert s == [s[0]] + s[1..];
    }
  }

  /** Deleting the separators gives back the decimal digits, hence the number. */
  lemma {:induction false} FormatNumberDigits(n: nat)
    ensures StripDots(FormatNumber(n)) == Digits(n)
    ensures AllDigits(StripDots(FormatNumber(n))) && Value(StripDots(FormatNumber(n))) == n
  {
    StripGroup(Digits(n));
    ValueOfDigits(n);
  }

  /** The first group has one to three digits, every later group exactly three. */
  lemma {:induction false} FormatNumberGroups(n: nat)
    ensures 1 <= |Groups(FormatNumber(n))[0]| <= 3
    ensures forall i :: 1 <= i < |Groups(FormatNumber(n))| ==> |Groups(FormatNumber(n))[i]| == 3
    ensures |Groups(FormatNumber(n))| == (|Digits(n)| - 1) / 3 + 1
  {
    GroupShape(Digits(n));
  }

  /** A separator appears exactly from 1000 upwards. */
  lemma {:induction false} FormatNumberHasDot(n: nat)
    ensures '.' in FormatNumber(n) <==> n >= 1000
  {
    GroupShape(Digits(n));
    DotIffSeveralGroups(FormatNumber(n));
    DigitsLength(n, 3);
    assert Pow10(3) == 1000;
  }
}
