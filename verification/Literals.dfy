/** What the literals of the grammar stand for, whoever wrote them (edn/src/lib.rs). */
module Literals {
  import opened Prelude
  import opened Values
  import opened Spanned
  import opened Lexical
  import opened Printer
  import opened Readable
  import opened AtomReadBack

  // ---- Blanks and comments ----

  /** A blank, or a comment with the end of its line. */
  datatype Piece = Blank(c: char) | Comment(text: string, eol: char)

  predicate IsPiece(p: Piece) {
    match p
    case Blank(c) => IsBlank(c)
    case Comment(text, eol) => (forall c :: c in text ==> NotEol(c)) && !NotEol(eol)
  }

  function PieceText(p: Piece): string {
    match p
    case Blank(c) => [c]
    case Comment(text, eol) => ";" + text + [eol]
  }

  function GapText(ps: seq<Piece>): string {
    if ps == [] then "" else PieceText(ps[0]) + GapText(ps[1..])
  }

  ghost predicate IsGap(ps: seq<Piece>) {
    forall k :: 0 <= k < |ps| ==> IsPiece(ps[k])
  }

  lemma PieceSkipped(s: string, i: nat, p: Piece, end: nat)
    requires IsPiece(p) && Occurs(s, i, PieceText(p)) && end == i + |PieceText(p)|
    ensures end <= |s| && Skip(s, i) == Skip(s, end)
  {
    var x := PieceText(p);
    OccursAt(s, i, x, 0);
    if p.Comment? {
      var e := |x| - 1;
      forall k | i + 1 <= k < i + e ensures NotEol(s[k]) {
        OccursAt(s, i, x, k - i);
        assert x[k - i] == p.text[k - i - 1];
      }
      OccursAt(s, i, x, e);
      RunTo(s, i + 1, i + e, NotEol);
    }
  }

  /** Any mixture of blanks and comments is skipped, and nothing after it. */
  lemma {:induction false} GapSkipped(s: string, i: nat, ps: seq<Piece>, g: string, end: nat)
    requires IsGap(ps) && g == GapText(ps) && Occurs(s, i, g) && end == i + |g|
    ensures end <= |s| && Skip(s, i) == Skip(s, end)
    decreases |ps|
  {
    if ps != [] {
      var p, rest := PieceText(ps[0]), GapText(ps[1..]);
      var k := i + |p|;
      SplitsAt(s, i, g, p, rest, k);
      PieceSkipped(s, i, ps[0], k);
      GapSkipped(s, k, ps[1..], rest, end);
    }
  }

  lemma SplitsAt(s: string, i: nat, g: string, p: string, rest: string, k: nat)
    requires Occurs(s, i, g) && g == p + rest && k == i + |p|
    ensures Occurs(s, i, p) && Occurs(s, k, rest) && k + |rest| == i + |g|
  {
    OccursParts(s, i, p, rest);
  }

  /** A comment at the end of the text needs no end of line. */
  lemma LastCommentSkipped(s: string, i: nat)
    requires i < |s| && s[i] == ';' && forall k :: i < k < |s| ==> NotEol(s[k])
    ensures Skip(s, i) == |s|
  {
    RunTo(s, i + 1, |s|, NotEol);
  }

  // ---- Text ----

  /** What may follow a backslash, and the character it stands for. */
  const ESCAPES: map<char, char> := map['\\' := '\\', '"' := '"', 'n' := '\n', 't' := '\t', 'r' := '\r']

  /** `x` between quotes spells `t`: every character as itself or as an escape. */
  predicate Spells(x: string, t: string) {
    if t == "" then x == ""
    else
      || (x != "" && IsNormal(x[0]) && x[0] == t[0] && Spells(x[1..], t[1..]))
      || (|x| > 1 && x[0] == '\\' && x[1] in ESCAPES && ESCAPES[x[1]] == t[0] && Spells(x[2..], t[1..]))
  }

  lemma EscapeMeans(s: string, i: nat)
    ensures SpecialChar(s, i)
         == if i + 1 < |s| && s[i] == '\\' && s[i + 1] in ESCAPES then Some(ESCAPES[s[i + 1]]) else None
  {
  }

  lemma NothingSpecial(s: string, i: nat)
    requires i <= |s| && (i < |s| ==> !IsNormal(s[i])) && SpecialChar(s, i).None?
    ensures TextItems(s, i) == ("", i)
  {
  }

  /** What is read up to `j` is spelled there, and nothing more can be read. */
  lemma {:induction false} ItemsSpelled(s: string, i: nat)
    requires i <= |s|
    ensures var (t, j) := TextItems(s, i); Spells(s[i..j], t)
    decreases |s| - i
  {
    var (t, j) := TextItems(s, i);
    EscapeMeans(s, i);
    if SpecialChar(s, i).Some? {
      ItemsSpelled(s, i + 2);
      var x := s[i..j];
      assert x[2..] == s[i + 2..j] && x[0] == s[i] && x[1] == s[i + 1];
      assert t[1..] == TextItems(s, i + 2).0;
    } else if i < |s| && IsNormal(s[i]) {
      NormalFirst(s, i);
      ItemsSpelled(s, i + 1);
      var x := s[i..j];
      assert x[1..] == s[i + 1..j] && x[0] == s[i];
      assert t[1..] == TextItems(s, i + 1).0;
    } else {
      NothingSpecial(s, i);
      assert s[i..j] == "";
    }
  }

  /** A spelling that a quote ends is read as what it spells. */
  lemma {:induction false} SpelledItems(s: string, i: nat, x: string, t: string)
    requires Occurs(s, i, x) && i + |x| < |s| && s[i + |x|] == '"' && Spells(x, t)
    ensures TextItems(s, i) == (t, i + |x|)
    decreases |x|
  {
    EscapeMeans(s, i);
    if t == "" {
      NothingSpecial(s, i);
    } else if IsNormal(x[0]) {
      assert x == [x[0]] + x[1..] && t == [t[0]] + t[1..];
      OccursParts(s, i, [x[0]], x[1..]);
      OccursAt(s, i, x, 0);
      SpelledItems(s, i + 1, x[1..], t[1..]);
      NormalFirst(s, i);
    } else {
      assert x == x[..2] + x[2..] && t == [t[0]] + t[1..];
      OccursParts(s, i, x[..2], x[2..]);
      OccursAt(s, i, x, 0);
      OccursAt(s, i, x, 1);
      SpelledItems(s, i + 2, x[2..], t[1..]);
    }
  }

  /** A text literal is read as `t` exactly if a spelling of `t` stands there between quotes. */
  lemma TextReadsExactly(s: string, i: nat, t: string, j: nat)
    requires i <= |s|
    ensures TextRule(s, i) == Match(Atom(Text(t)), j)
       <==> i + 2 <= j <= |s| && s[i] == '"' && s[j - 1] == '"' && Spells(s[i + 1..j - 1], t)
  {
    if TextRule(s, i) == Match(Atom(Text(t)), j) {
      ItemsSpelled(s, i + 1);
    }
    if i + 2 <= j <= |s| && s[i] == '"' && s[j - 1] == '"' && Spells(s[i + 1..j - 1], t) {
      SpelledItems(s, i + 1, s[i + 1..j - 1], t);
    }
  }

  // ---- Integers in other bases ----

  /** The digit for `d`: a decimal digit or, from ten on, a letter in either case. */
  function DigitChar(d: nat, upper: bool): char
    requires d < 36
  {
    if d < 10 then '0' + d as char else if upper then 'A' + (d - 10) as char else 'a' + (d - 10) as char
  }

  /** `n` written in a base. */
  function Numeral(n: nat, base: nat, upper: bool): (r: string)
    requires 2 <= base <= 36
    ensures r != ""
  {
    if n < base then [DigitChar(n, upper)] else Numeral(n / base, base, upper) + [DigitChar(n % base, upper)]
  }

  lemma DigitMeans(d: nat, upper: bool)
    requires d < 36
    ensures DigitValue(DigitChar(d, upper)) == d && IsAlphanumeric(DigitChar(d, upper))
    ensures d < 16 ==> IsHex(DigitChar(d, upper))
    ensures d < 8 ==> IsOctal(DigitChar(d, upper))
  {
  }

  lemma {:induction false} NumeralReads(n: nat, base: nat, upper: bool)
    requires 2 <= base <= 36
    ensures RadixValue(Numeral(n, base, upper), base) == Some(n)
    ensures forall c :: c in Numeral(n, base, upper) ==>
              IsAlphanumeric(c) && (base <= 16 ==> IsHex(c)) && (base <= 8 ==> IsOctal(c))
    decreases n
  {
    var t := Numeral(n, base, upper);
    if n < base {
      DigitMeans(n, upper);
      assert t[..0] == "";
    } else {
      Shrinks(n, base);
      NumeralReads(n / base, base, upper);
      DigitMeans(n % base, upper);
      assert t[..|t| - 1] == Numeral(n / base, base, upper);
    }
  }

  lemma Shrinks(n: nat, base: nat)
    requires 2 <= base <= n
    ensures n / base < n && n / base * base + n % base == n
  {
  }

  /** The numeral `t` stands at `from` and is not prolonged. */
  ghost predicate Stands(s: string, from: nat, t: string, p: char -> bool) {
    && Occurs(s, from, t) && (forall c :: c in t ==> p(c))
    && (from + |t| < |s| ==> !p(s[from + |t|]))
  }

  lemma StandingRun(s: string, from: nat, t: string, p: char -> bool)
    requires Stands(s, from, t, p)
    ensures Run(s, from, p) == from + |t|
  {
    forall m | from <= m < from + |t| ensures p(s[m]) {
      OccursAt(s, from, t, m - from);
    }
    RunTo(s, from, from + |t|, p);
  }

  lemma RadixReads(s: string, i: nat, from: nat, base: nat, n: I64, t: string, p: char -> bool)
    requires 2 <= base <= 36 && n >= 0 && i < from && t != "" && RadixValue(t, base) == Some(n) && Stands(s, from, t, p)
    ensures RadixRule(s, i, from, base, p) == Match(Atom(Integer(n)), from + |t|)
  {
    StandingRun(s, from, t, p);
  }

  /** A sign or digits are read by no earlier rule unless `N` follows the digits. */
  lemma NoBigint(s: string, i: nat, e: nat)
    requires i < e <= |s| && (forall k :: i <= k < e ==> IsDigit(s[k])) && (e < |s| ==> !IsDigit(s[e]) && s[e] != 'N')
    ensures BigintRule(s, i).NoMatch?
  {
    RunTo(s, i, e, IsDigit);
  }

  /** `16rff`: a base from 2 to 36, written in decimal, and a numeral in that base. */
  lemma BasedReads(h: Host, s: string, i: nat, base: nat, n: I64, upper: bool, t: string)
    requires 2 <= base <= 36 && n >= 0 && t == Numeral(n, base, upper)
    requires Occurs(s, i, Decimal(base) + "r") && Stands(s, i + |Decimal(base)| + 1, t, IsAlphanumeric)
    ensures NumberRule(h, s, i) == Match(Atom(Integer(n)), i + |Decimal(base)| + 1 + |t|)
  {
    BaseAt(s, i, base);
    NumeralReads(n, base, upper);
    DecimalReads(base);
    BasedAt(h, s, i, i + |Decimal(base)|, base, n, t);
  }

  lemma BasedAt(h: Host, s: string, i: nat, j: nat, base: nat, n: I64, t: string)
    requires 2 <= base <= 36 && n >= 0 && i < j < |s| && BaseEnd(s, i) == Some(j) && s[j] == 'r'
    requires RadixValue(s[i..j], 10) == Some(base) && forall k :: i <= k < j ==> IsDigit(s[k])
    requires t != "" && RadixValue(t, base) == Some(n) && Stands(s, j + 1, t, IsAlphanumeric)
    ensures NumberRule(h, s, i) == Match(Atom(Integer(n)), j + 1 + |t|)
  {
    NoBigint(s, i, j);
    RadixReads(s, i, j + 1, base, n, t, IsAlphanumeric);
    BasedIs(s, i, j, base);
  }

  lemma BasedIs(s: string, i: nat, j: nat, base: nat)
    requires i < j < |s| && BaseEnd(s, i) == Some(j) && s[j] == 'r' && RadixValue(s[i..j], 10) == Some(base)
    ensures BasedRule(s, i) == RadixRule(s, i, j + 1, base, IsAlphanumeric)
  {
  }

  lemma BaseAt(s: string, i: nat, base: nat)
    requires 2 <= base <= 36 && Occurs(s, i, Decimal(base) + "r")
    ensures var j := i + |Decimal(base)|;
            && BaseEnd(s, i) == Some(j) && j < |s| && s[j] == 'r' && s[i..j] == Decimal(base)
            && forall k :: i <= k < j ==> IsDigit(s[k])
  {
    var b := Decimal(base);
    var w := b + "r";
    OccursParts(s, i, b, "r");
    OccursAt(s, i, w, |b|);
    OccursAt(s, i, w, 0);
    DecimalReads(base);
    if base >= 10 {
      assert b == [Digit(base / 10)] + [Digit(base % 10)];
      OccursAt(s, i, w, 1);
    }
  }

  /** `0x1f`: hexadecimal digits in either case. */
  lemma HexReads(h: Host, s: string, i: nat, n: I64, upper: bool)
    requires n >= 0 && Occurs(s, i, "0x") && Stands(s, i + 2, Numeral(n, 16, upper), IsHex)
    ensures NumberRule(h, s, i) == Match(Atom(Integer(n)), i + 2 + |Numeral(n, 16, upper)|)
  {
    OccursAt(s, i, "0x", 0);
    OccursAt(s, i, "0x", 1);
    NoBigint(s, i, i + 1);
    NumeralReads(n, 16, upper);
    RadixReads(s, i, i + 2, 16, n, Numeral(n, 16, upper), IsHex);
    HexIs(s, i);
    ThirdChoice(BigintRule(s, i), BasedRule(s, i), HexRule(s, i),
                Or(OctalRule(s, i), Or(IntegerRule(s, i), FloatRule(h, s, i))));
  }

  lemma HexIs(s: string, i: nat)
    requires Occurs(s, i, "0x") && s[i] == '0'
    ensures BasedRule(s, i).NoMatch? && HexRule(s, i) == RadixRule(s, i, i + 2, 16, IsHex)
  {
    StartsWithSlice(s, i, "0x");
    assert BaseEnd(s, i).None?;
  }

  lemma ThirdChoice<T>(a: Outcome<T>, b: Outcome<T>, c: Outcome<T>, d: Outcome<T>)
    requires a.NoMatch? && b.NoMatch? && c.Match?
    ensures Or(a, Or(b, Or(c, d))) == c
  {
  }

  /** `017`: octal digits after a zero. */
  lemma OctalReads(h: Host, s: string, i: nat, n: I64)
    requires n >= 0 && i < |s| && s[i] == '0' && Stands(s, i + 1, Numeral(n, 8, false), IsOctal)
    requires var e := i + 1 + |Numeral(n, 8, false)|; e < |s| ==> !IsDigit(s[e]) && s[e] != 'N'
    ensures NumberRule(h, s, i) == Match(Atom(Integer(n)), i + 1 + |Numeral(n, 8, false)|)
  {
    var t := Numeral(n, 8, false);
    NumeralReads(n, 8, false);
    OctalDigits(s, i, t);
    NoBigint(s, i, i + 1 + |t|);
    NoOtherBase(s, i);
    RadixReads(s, i, i + 1, 8, n, t, IsOctal);
    FourthChoice(BigintRule(s, i), BasedRule(s, i), HexRule(s, i), OctalRule(s, i),
                 Or(IntegerRule(s, i), FloatRule(h, s, i)));
  }

  lemma NoOtherBase(s: string, i: nat)
    requires i + 1 < |s| && s[i] == '0' && s[i + 1] != 'x'
    ensures BasedRule(s, i).NoMatch? && HexRule(s, i).NoMatch?
  {
    NotStarts(s, i, "0x", 1);
    assert BaseEnd(s, i).None?;
  }

  lemma FourthChoice<T>(a: Outcome<T>, b: Outcome<T>, c: Outcome<T>, d: Outcome<T>, e: Outcome<T>)
    requires a.NoMatch? && b.NoMatch? && c.NoMatch? && d.Match?
    ensures Or(a, Or(b, Or(c, Or(d, e)))) == d
  {
  }

  lemma OctalDigits(s: string, i: nat, t: string)
    requires i < |s| && s[i] == '0' && t != "" && Stands(s, i + 1, t, IsOctal)
    ensures forall k :: i <= k < i + 1 + |t| ==> IsDigit(s[k])
  {
    forall k | i < k < i + 1 + |t| ensures IsOctal(s[k]) {
      OccursAt(s, i + 1, t, k - i - 1);
      assert t[k - i - 1] in t;
    }
  }

  // ---- UUIDs and bytes ----

  lemma {:induction false} HexDigitsJoin(a: string, b: string)
    ensures HexDigits(a + b) == HexDigits(a) + HexDigits(b)
  {
    if a == "" {
      assert a + b == b;
    } else {
      HexDigitsJoin(a[1..], b);
      assert (a + b)[1..] == a[1..] + b;
      var x := if a[0] == '-' then "" else [a[0]];
      assert HexDigits(a + b) == x + HexDigits(a[1..] + b);
      Associates(x, HexDigits(a[1..]), HexDigits(b));
    }
  }

  lemma Associates(a: string, b: string, c: string)
    ensures a + b + c == a + (b + c)
  {
  }

  lemma {:induction false} HexDigitsPlain(a: string)
    requires '-' !in a
    ensures HexDigits(a) == a
  {
    if a != "" {
      HexDigitsPlain(a[1..]);
      assert a == [a[0]] + a[1..];
    }
  }

  /** The hyphens of a UUID only group its digits. */
  lemma HyphensIgnored(a: string, b: string)
    requires '-' !in a
    ensures HexDigits(a + "-" + b) == a + HexDigits(b)
  {
    HexDigitsJoin(a + "-", b);
    HexDigitsJoin(a, "-");
    HexDigitsPlain(a);
    assert HexDigits("-") == "";
    assert a + "" == a;
  }

  /** Two hexadecimal digits for every byte. */
  function HexText(bs: seq<Byte>, upper: bool): string {
    if bs == [] then "" else [DigitChar(bs[0] / 16, upper), DigitChar(bs[0] % 16, upper)] + HexText(bs[1..], upper)
  }

  lemma {:induction false} HexTextReads(bs: seq<Byte>, upper: bool)
    ensures HexBytes(HexText(bs, upper)) == Some(bs)
    ensures forall c :: c in HexText(bs, upper) ==> IsHex(c)
  {
    if bs != [] {
      HexTextReads(bs[1..], upper);
      DigitMeans(bs[0] / 16, upper);
      DigitMeans(bs[0] % 16, upper);
      assert HexText(bs, upper)[2..] == HexText(bs[1..], upper);
      assert bs == [bs[0]] + bs[1..];
    }
  }
}
