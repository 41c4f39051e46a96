/** The lexical rules of the EDN grammar (edn/src/lib.rs): every alternative of `value` that is not a
    collection, and the blank-skipping rule. A rule reads `s` from index `i`. */
module Lexical {
  import opened Prelude
  import opened Names
  import opened Values
  import opened Spanned

  /** `Panic` is a failed `unwrap` or `expect` in a rule's action; `Overflow` is an exhausted stack. */
  datatype Outcome<+T> = Match(value: T, next: nat) | NoMatch | Panic | Overflow

  /** Library code the grammar calls: `str::parse::<f64>`, chrono's RFC 3339 reader and `timestamp_opt`. */
  datatype Host = Host(
    parseF64: string -> Float,
    rfc3339: string -> Option<int>,
    timestamp: (int, int) -> Option<int>)

  /** Ordered choice. */
  function Or<T>(a: Outcome<T>, b: Outcome<T>): Outcome<T> {
    if a.NoMatch? then b else a
  }

  ghost predicate Advances<T>(r: Outcome<T>, s: string, i: nat) {
    r.Match? ==> i < r.next <= |s|
  }

  /** What every lexical rule promises: it reads an atom, consumes something, and needs no stack. */
  ghost predicate Lexes(r: Outcome<SpannedValue>, s: string, i: nat) {
    Advances(r, s, i) && !r.Overflow? && (r.Match? ==> r.value.Atom?)
  }

  predicate IsName(v: SpannedValue) {
    v.Atom? && (v.v.PlainSymbol? || v.v.NamespacedSymbol? || v.v.Keyword?)
  }

  /** A rule that reads no symbol and no keyword. */
  ghost predicate Nameless(r: Outcome<SpannedValue>) {
    r.Match? ==> !IsName(r.value)
  }

  predicate StartsWith(s: string, i: nat, lit: string): (b: bool)
    ensures b ==> i + |lit| <= |s|
    decreases |s| - i
  {
    if lit == "" then i <= |s| else i < |s| && s[i] == lit[0] && StartsWith(s, i + 1, lit[1..])
  }

  /** `t` stands in `s` from index `i`. */
  ghost predicate Occurs(s: string, i: nat, t: string) {
    i + |t| <= |s| && s[i..i + |t|] == t
  }

  lemma {:induction false} StartsWithSlice(s: string, i: nat, lit: string)
    ensures StartsWith(s, i, lit) <==> Occurs(s, i, lit)
    decreases |lit|
  {
    if lit != "" {
      StartsWithSlice(s, i + 1, lit[1..]);
      if i + |lit| <= |s| {
        var w := s[i..i + |lit|];
        assert w[1..] == s[i + 1..i + |lit|];
        assert lit == [lit[0]] + lit[1..] && w == [w[0]] + w[1..];
      }
    }
  }

  lemma StartsWithAt(s: string, i: nat, lit: string, k: nat)
    requires StartsWith(s, i, lit) && k < |lit|
    ensures s[i + k] == lit[k]
  {
    StartsWithSlice(s, i, lit);
    assert s[i..i + |lit|][k] == s[i + k];
  }

  /** End of the longest run of characters in class `p`. */
  function Run(s: string, i: nat, p: char -> bool): (j: nat)
    requires i <= |s|
    ensures i <= j <= |s|
    ensures forall k :: i <= k < j ==> p(s[k])
    ensures j < |s| ==> !p(s[j])
    decreases |s| - i
  {
    if i < |s| && p(s[i]) then Run(s, i + 1, p) else i
  }

  predicate IsDigit(c: char) { '0' <= c <= '9' }
  predicate IsOctal(c: char) { '0' <= c <= '7' }
  predicate IsHex(c: char) { '0' <= c <= '9' || 'a' <= c <= 'f' || 'A' <= c <= 'F' }
  predicate IsLowerHex(c: char) { 'a' <= c <= 'f' || '0' <= c <= '9' }
  predicate IsAlphanumeric(c: char) { '0' <= c <= '9' || 'a' <= c <= 'z' || 'A' <= c <= 'Z' }
  predicate IsSign(c: char) { c == '+' || c == '-' }
  predicate IsBlank(c: char) { c == ' ' || c == '\r' || c == '\n' || c == '\t' || c == ',' }
  predicate NotEol(c: char) { c != '\r' && c != '\n' }
  predicate IsNormal(c: char) { c != '"' && c != '\\' }
  predicate IsInitial(c: char) {
    IsAlphanumeric(c) || c == '*' || c == '!' || c == '_' || c == '?' || c == '$' || c == '%' || c == '&'
    || c == '=' || c == '<' || c == '>'
  }
  predicate IsSubsequent(c: char) { IsInitial(c) || c == '+' || c == '-' }

  // ---- Blanks and comments: the rule `__` ----

  function CommentEnd(s: string, i: nat): (j: nat)
    requires i < |s|
    ensures i < j <= |s|
  {
    var e := Run(s, i + 1, NotEol);
    if e < |s| then e + 1 else e
  }

  function Skip(s: string, i: nat): (j: nat)
    requires i <= |s|
    ensures i <= j <= |s|
    decreases |s| - i
  {
    if i < |s| && IsBlank(s[i]) then Skip(s, i + 1)
    else if i < |s| && s[i] == ';' then Skip(s, CommentEnd(s, i))
    else i
  }

  /** `whitespace()+` */
  function Blanks(s: string, i: nat): (r: Option<nat>)
    requires i <= |s|
    ensures r.Some? ==> i < r.value <= |s| && forall k :: i <= k < r.value ==> IsBlank(s[k])
  {
    var e := Run(s, i, IsBlank);
    if e > i then Some(e) else None
  }

  // ---- Constants ----

  function NilRule(s: string, i: nat): (r: Outcome<SpannedValue>)
    requires i <= |s|
    ensures Lexes(r, s, i) && Nameless(r)
  {
    if StartsWith(s, i, "nil") then Match(Atom(Nil), i + 3) else NoMatch
  }

  function BooleanRule(s: string, i: nat): (r: Outcome<SpannedValue>)
    requires i <= |s|
    ensures Lexes(r, s, i) && Nameless(r)
  {
    if StartsWith(s, i, "true") then Match(Atom(Boolean(true)), i + 4)
    else if StartsWith(s, i, "false") then Match(Atom(Boolean(false)), i + 5)
    else NoMatch
  }

  function NanRule(s: string, i: nat): (r: Outcome<SpannedValue>)
    requires i <= |s|
    ensures Lexes(r, s, i) && Nameless(r)
  {
    if !StartsWith(s, i, "#f") then NoMatch else
    match Blanks(s, i + 2)
    case None => NoMatch
    case Some(j) => if StartsWith(s, j, "NaN") then Match(Atom(Float(NaN)), j + 3) else NoMatch
  }

  function InfinityRule(s: string, i: nat): (r: Outcome<SpannedValue>)
    requires i <= |s|
    ensures Lexes(r, s, i) && Nameless(r)
  {
    if !StartsWith(s, i, "#f") then NoMatch else
    match Blanks(s, i + 2)
    case None => NoMatch
    case Some(j) =>
      if j < |s| && IsSign(s[j]) && StartsWith(s, j + 1, "Infinity")
      then Match(Atom(Float(if s[j] == '+' then PosInfinity else NegInfinity)), j + 9)
      else NoMatch
  }

  // ---- Numbers ----

  function DigitValue(c: char): nat {
    if '0' <= c <= '9' then (c - '0') as int
    else if 'a' <= c <= 'z' then (c - 'a') as int + 10
    else if 'A' <= c <= 'Z' then (c - 'A') as int + 10
    else 36
  }

  /** Value of a digit string, or `None` if some character is not a digit of the base. */
  function RadixValue(t: string, base: nat): Option<nat> {
    if t == "" then Some(0) else
    match RadixValue(t[..|t| - 1], base)
    case None => None
    case Some(v) =>
      var d := DigitValue(t[|t| - 1]);
      if d < base then Some(v * base + d) else None
  }

  /** `i64::from_str_radix` on an unsigned string. */
  function RadixI64(t: string, base: nat): Option<I64> {
    match RadixValue(t, base)
    case None => None
    case Some(v) => if InI64(v) then Some(v) else None
  }

  /** A decimal with an optional sign. */
  function SignedValue(t: string): Option<int> {
    if t == "" then None
    else if t[0] == '-' then (match RadixValue(t[1..], 10) case None => None case Some(v) => var n: int := v; Some(-n))
    else if t[0] == '+' then (match RadixValue(t[1..], 10) case None => None case Some(v) => Some(v))
    else match RadixValue(t, 10) case None => None case Some(v) => Some(v)
  }

  /** `sign()? digit()+` */
  function SignedDigits(s: string, i: nat): (r: Option<nat>)
    requires i <= |s|
    ensures r.Some? ==> i < r.value <= |s|
  {
    var j := if i < |s| && IsSign(s[i]) then i + 1 else i;
    var e := Run(s, j, IsDigit);
    if e > j then Some(e) else None
  }

  function BigintRule(s: string, i: nat): (r: Outcome<SpannedValue>)
    requires i <= |s|
    ensures Lexes(r, s, i) && Nameless(r)
  {
    match SignedDigits(s, i)
    case None => NoMatch
    case Some(e) =>
      if e < |s| && s[e] == 'N' then
        (match SignedValue(s[i..e]) case None => Panic case Some(n) => Match(Atom(BigInteger(n)), e + 1))
      else NoMatch
  }

  /** `validbase()`: `3[0-6]`, `[12][0-9]` or `[2-9]`, in this order. */
  function BaseEnd(s: string, i: nat): (r: Option<nat>)
    requires i <= |s|
    ensures r.Some? ==> i < r.value <= |s|
  {
    if i + 1 < |s| && s[i] == '3' && '0' <= s[i + 1] <= '6' then Some(i + 2)
    else if i + 1 < |s| && '1' <= s[i] <= '2' && IsDigit(s[i + 1]) then Some(i + 2)
    else if i < |s| && '2' <= s[i] <= '9' then Some(i + 1)
    else None
  }

  function RadixRule(s: string, i: nat, from: nat, base: nat, p: char -> bool): (r: Outcome<SpannedValue>)
    requires i < from <= |s|
    ensures Lexes(r, s, i) && Nameless(r)
  {
    var e := Run(s, from, p);
    if e == from then NoMatch
    else match RadixI64(s[from..e], base) case None => Panic case Some(v) => Match(Atom(Integer(v)), e)
  }

  function BasedRule(s: string, i: nat): (r: Outcome<SpannedValue>)
    requires i <= |s|
    ensures Lexes(r, s, i) && Nameless(r)
  {
    match BaseEnd(s, i)
    case None => NoMatch
    case Some(j) =>
      if j < |s| && s[j] == 'r' then
        (match RadixValue(s[i..j], 10) case None => Panic case Some(b) => RadixRule(s, i, j + 1, b, IsAlphanumeric))
      else NoMatch
  }

  function HexRule(s: string, i: nat): (r: Outcome<SpannedValue>)
    requires i <= |s|
    ensures Lexes(r, s, i) && Nameless(r)
  {
    if StartsWith(s, i, "0x") then RadixRule(s, i, i + 2, 16, IsHex) else NoMatch
  }

  function OctalRule(s: string, i: nat): (r: Outcome<SpannedValue>)
    requires i <= |s|
    ensures Lexes(r, s, i) && Nameless(r)
  {
    if i < |s| && s[i] == '0' then RadixRule(s, i, i + 1, 8, IsOctal) else NoMatch
  }

  predicate FloatMark(s: string, e: nat) {
    e < |s| && (s[e] == '.' || s[e] == 'e' || s[e] == 'E')
  }

  function IntegerRule(s: string, i: nat): (r: Outcome<SpannedValue>)
    requires i <= |s|
    ensures Lexes(r, s, i) && Nameless(r)
  {
    match SignedDigits(s, i)
    case None => NoMatch
    case Some(e) =>
      if FloatMark(s, e) then NoMatch else
      match SignedValue(s[i..e])
      case None => Panic
      case Some(n) => if InI64(n) then Match(Atom(Integer(n)), e) else Panic
  }

  /** `("." digit()+)?` */
  function FractionEnd(s: string, i: nat): (j: nat)
    requires i <= |s|
    ensures i <= j <= |s|
  {
    if i < |s| && s[i] == '.' && Run(s, i + 1, IsDigit) > i + 1 then Run(s, i + 1, IsDigit) else i
  }

  /** `(['e' | 'E'] sign()? digit()+)?` */
  function ExponentEnd(s: string, i: nat): (j: nat)
    requires i <= |s|
    ensures i <= j <= |s|
  {
    if i < |s| && (s[i] == 'e' || s[i] == 'E') && SignedDigits(s, i + 1).Some? then SignedDigits(s, i + 1).value
    else i
  }

  function FloatRule(h: Host, s: string, i: nat): (r: Outcome<SpannedValue>)
    requires i <= |s|
    ensures Lexes(r, s, i) && Nameless(r)
  {
    match SignedDigits(s, i)
    case None => NoMatch
    case Some(e) =>
      var j := ExponentEnd(s, FractionEnd(s, e));
      Match(Atom(Float(h.parseF64(s[i..j]))), j)
  }

  function NumberRule(h: Host, s: string, i: nat): (r: Outcome<SpannedValue>)
    requires i <= |s|
    ensures Lexes(r, s, i) && Nameless(r)
  {
    Or(BigintRule(s, i), Or(BasedRule(s, i), Or(HexRule(s, i),
      Or(OctalRule(s, i), Or(IntegerRule(s, i), FloatRule(h, s, i))))))
  }

  // ---- Text ----

  /** One of the five escapes, translated. */
  function SpecialChar(s: string, i: nat): (r: Option<char>)
    ensures r.Some? ==> i + 1 < |s| && s[i] == '\\'
  {
    if i + 1 < |s| && s[i] == '\\' then
      if s[i + 1] == '\\' then Some('\\')
      else if s[i + 1] == '"' then Some('"')
      else if s[i + 1] == 'n' then Some('\n')
      else if s[i + 1] == 't' then Some('\t')
      else if s[i + 1] == 'r' then Some('\r')
      else None
    else None
  }

  /** `(string_special_char() / string_normal_chars())*`, joined, and where it ends. */
  function TextItems(s: string, i: nat): (r: (string, nat))
    requires i <= |s|
    ensures i <= r.1 <= |s|
    decreases |s| - i
  {
    match SpecialChar(s, i)
    case Some(c) =>
      var (t, j) := TextItems(s, i + 2);
      ([c] + t, j)
    case None =>
      var e := Run(s, i, IsNormal);
      if e == i then ("", i) else
        var (t, j) := TextItems(s, e);
        (s[i..e] + t, j)
  }

  function TextRule(s: string, i: nat): (r: Outcome<SpannedValue>)
    requires i <= |s|
    ensures Lexes(r, s, i) && Nameless(r)
  {
    if i < |s| && s[i] == '"' then
      var (t, j) := TextItems(s, i + 1);
      if j < |s| && s[j] == '"' then Match(Atom(Text(t)), j + 1) else NoMatch
    else NoMatch
  }

  // ---- Tagged literals ----

  /** Template characters: `9 2 3 5 6` stand for the digits up to them, `x` for a lower-case
      hexadecimal digit, and `-`, `:` and `T` for themselves. */
  predicate Fitting(t: char, c: char) {
    if t == '9' then '0' <= c <= '9'
    else if t == '2' then '0' <= c <= '2'
    else if t == '3' then '0' <= c <= '3'
    else if t == '5' then '0' <= c <= '5'
    else if t == '6' then '0' <= c <= '6'
    else if t == 'x' then IsLowerHex(c)
    else c == t && (t == '-' || t == ':' || t == 'T')
  }

  predicate Fits(s: string, i: nat, template: string): (b: bool)
    ensures b ==> i + |template| <= |s|
    decreases |s| - i
  {
    if template == "" then i <= |s|
    else i < |s| && Fitting(template[0], s[i]) && Fits(s, i + 1, template[1..])
  }

  const DATE_TIME: string := "9999-29-39T29:59:69"
  const ZONE: string := "29:59"
  const UUID: string := "xxxxxxxx-xxxx-xxxx-xxxx-xxxxxxxxxxxx"

  /** `"Z" / (("+" / "-") hh ":" mm)` */
  function ZoneEnd(s: string, i: nat): (r: Option<nat>)
    requires i <= |s|
    ensures r.Some? ==> i < r.value <= |s|
  {
    if i < |s| && s[i] == 'Z' then Some(i + 1)
    else if i < |s| && IsSign(s[i]) && Fits(s, i + 1, ZONE) then Some(i + 6)
    else None
  }

  /** The quoted timestamp between its quotes. */
  function TimestampEnd(s: string, i: nat): (r: Option<nat>)
    requires i <= |s|
    ensures r.Some? ==> i < r.value <= |s|
  {
    if Fits(s, i, DATE_TIME) then ZoneEnd(s, FractionEnd(s, i + 19)) else None
  }

  /** The two quotes of a quoted timestamp at `i`. */
  function QuotedTimestamp(s: string, i: nat): (r: Option<nat>)
    ensures r.Some? ==> i + 1 < r.value < |s| && s[i] == '"' && s[r.value] == '"' && TimestampEnd(s, i + 1) == r
  {
    if i < |s| && s[i] == '"' then
      match TimestampEnd(s, i + 1)
      case None => None
      case Some(e) => if e < |s| && s[e] == '"' then Some(e) else None
    else None
  }

  function InstStringRule(h: Host, s: string, i: nat): (r: Outcome<SpannedValue>)
    requires i <= |s|
    ensures Lexes(r, s, i) && Nameless(r)
  {
    if !StartsWith(s, i, "#inst") then NoMatch else
    match Blanks(s, i + 5)
    case None => NoMatch
    case Some(j) =>
      match QuotedTimestamp(s, j)
      case None => NoMatch
      case Some(e) =>
        match h.rfc3339(s[j + 1..e])
        case None => NoMatch
        case Some(t) => Match(Atom(Instant(t)), e + 1)
  }

  /** `#instmillis` and `#instmicros`: `unit` ticks per second, `nanos` nanoseconds per tick. */
  function InstTicksRule(h: Host, s: string, i: nat, tag: string, unit: nat, nanos: nat): (r: Outcome<SpannedValue>)
    requires i <= |s| && tag != "" && unit > 0
    ensures Lexes(r, s, i) && Nameless(r)
  {
    if !StartsWith(s, i, tag) then NoMatch else
    match Blanks(s, i + |tag|)
    case None => NoMatch
    case Some(j) =>
      var e := Run(s, j, IsDigit);
      if e == j then NoMatch else
      match RadixI64(s[j..e], 10)
      case None => Panic
      case Some(n) =>
        match h.timestamp(n / unit, n % unit * nanos)
        case None => Panic
        case Some(t) => Match(Atom(Instant(t)), e)
  }

  function InstRule(h: Host, s: string, i: nat): (r: Outcome<SpannedValue>)
    requires i <= |s|
    ensures Lexes(r, s, i) && Nameless(r)
  {
    Or(InstTicksRule(h, s, i, "#instmillis", 1000, 1_000_000),
      Or(InstTicksRule(h, s, i, "#instmicros", 1_000_000, 1000), InstStringRule(h, s, i)))
  }

  function HexDigits(t: string): string {
    if t == "" then "" else (if t[0] == '-' then "" else [t[0]]) + HexDigits(t[1..])
  }

  function UuidRule(s: string, i: nat): (r: Outcome<SpannedValue>)
    requires i <= |s|
    ensures Lexes(r, s, i) && Nameless(r)
  {
    if !StartsWith(s, i, "#uuid") then NoMatch else
    match Blanks(s, i + 5)
    case None => NoMatch
    case Some(j) =>
      if j < |s| && s[j] == '"' && Fits(s, j + 1, UUID) && j + 37 < |s| && s[j + 37] == '"' then
        (match RadixValue(HexDigits(s[j + 1..j + 37]), 16)
         case None => Panic
         case Some(u) => Match(Atom(Uuid(u)), j + 38))
      else NoMatch
  }

  /** `hex::decode`; an odd number of digits is an error. */
  function HexBytes(t: string): Option<seq<Byte>> {
    if t == "" then Some([])
    else if |t| == 1 then None
    else match HexBytes(t[2..])
      case None => None
      case Some(rest) =>
        var b := DigitValue(t[0]) * 16 + DigitValue(t[1]);
        if b < 256 then Some([b] + rest) else None
  }

  function BytesRule(s: string, i: nat): (r: Outcome<SpannedValue>)
    requires i <= |s|
    ensures Lexes(r, s, i) && Nameless(r)
  {
    if !StartsWith(s, i, "#bytes") then NoMatch else
    match Blanks(s, i + 6)
    case None => NoMatch
    case Some(j) =>
      var e := Run(s, j, IsHex);
      if e == j then NoMatch
      else match HexBytes(s[j..e]) case None => Panic case Some(b) => Match(Atom(Bytes(b)), e)
  }

  // ---- Keywords and symbols ----

  /** `("." symbol_char_subsequent()+)*` */
  function DottedEnd(s: string, i: nat): (j: nat)
    requires i <= |s|
    ensures i <= j <= |s|
    decreases |s| - i
  {
    if i < |s| && s[i] == '.' && Run(s, i + 1, IsSubsequent) > i + 1
    then DottedEnd(s, Run(s, i + 1, IsSubsequent))
    else i
  }

  /** `symbol_namespace()` */
  function NamespaceEnd(s: string, i: nat): (r: Option<nat>)
    requires i <= |s|
    ensures r.Some? ==> i < r.value <= |s|
  {
    if i < |s| && IsInitial(s[i]) then Some(DottedEnd(s, Run(s, i + 1, IsSubsequent))) else None
  }

  /** `symbol_name()`: one or more initial characters, then subsequent ones. */
  function NameEnd(s: string, i: nat): (r: Option<nat>)
    requires i <= |s|
    ensures r.Some? ==> i < r.value <= |s|
  {
    var j := Run(s, i, IsInitial);
    if j == i then None else Some(Run(s, j, IsSubsequent))
  }

  function PlainNameEnd(s: string, i: nat): (r: Option<nat>)
    requires i <= |s|
    ensures r.Some? ==> i < r.value <= |s|
  {
    if NameEnd(s, i).Some? then NameEnd(s, i)
    else if StartsWith(s, i, "...") then Some(i + 3)
    else if StartsWith(s, i, ".") then Some(i + 1)
    else None
  }

  /** End of a namespace that is followed by the solidus. */
  function QualifierEnd(s: string, i: nat): (r: Option<nat>)
    requires i <= |s|
    ensures r.Some? ==> i < r.value < |s| && s[r.value] == '/'
  {
    match NamespaceEnd(s, i)
    case None => None
    case Some(e) => if e < |s| && s[e] == '/' then Some(e) else None
  }

  /** What `namespaced` or `plain` makes of the pieces; a panic if a piece is empty. */
  function Named(n: Option<Name>, symbol: bool, next: nat): (r: Outcome<SpannedValue>)
    requires n.Some? && symbol ==> n.value.boundary > 0
  {
    match n
    case None => Panic
    case Some(n) => Match(Atom(if symbol then NamespacedSymbol(n) else Keyword(n)), next)
  }

  /** The name after the solidus at `e`. */
  function QualifiedSymbol(s: string, i: nat, e: nat): (r: Outcome<SpannedValue>)
    requires i < e < |s|
    ensures Lexes(r, s, i)
  {
    match PlainNameEnd(s, e + 1)
    case None => NoMatch
    case Some(j) => Named(Namespaced(s[i..e], s[e + 1..j]), true, j)
  }

  function BareSymbol(s: string, i: nat): (r: Outcome<SpannedValue>)
    requires i <= |s|
    ensures Lexes(r, s, i)
  {
    match PlainNameEnd(s, i)
    case None => NoMatch
    case Some(j) => Match(Atom(PlainSymbol(s[i..j])), j)
  }

  /** Once a namespace and its solidus have matched, the optional part is not taken back. */
  function SymbolRule(s: string, i: nat): (r: Outcome<SpannedValue>)
    requires i <= |s|
    ensures Lexes(r, s, i)
  {
    match QualifierEnd(s, i)
    case Some(e) => QualifiedSymbol(s, i, e)
    case None => BareSymbol(s, i)
  }

  function QualifiedKeyword(s: string, i: nat, e: nat): (r: Outcome<SpannedValue>)
    requires i < e < |s|
    ensures Lexes(r, s, i)
  {
    match NameEnd(s, e + 1)
    case None => NoMatch
    case Some(j) => Named(Namespaced(s[i..e], s[e + 1..j]), false, j)
  }

  function BareKeyword(s: string, i: nat): (r: Outcome<SpannedValue>)
    requires i <= |s|
    ensures Lexes(r, s, i)
  {
    match NameEnd(s, i)
    case None => NoMatch
    case Some(j) => Named(Plain(s[i..j]), false, j)
  }

  function KeywordRule(s: string, i: nat): (r: Outcome<SpannedValue>)
    requires i <= |s|
    ensures Lexes(r, s, i)
  {
    if !(i < |s| && s[i] == ':') then NoMatch else
    match QualifierEnd(s, i + 1)
    case Some(e) => QualifiedKeyword(s, i + 1, e)
    case None => BareKeyword(s, i + 1)
  }

  /** The alternatives of `value` before keywords, in the grammar's order. */
  function LiteralRule(h: Host, s: string, i: nat): (r: Outcome<SpannedValue>)
    requires i <= |s|
    ensures Lexes(r, s, i) && Nameless(r)
  {
    Or(NilRule(s, i), Or(NanRule(s, i), Or(InfinityRule(s, i), Or(BooleanRule(s, i), Or(NumberRule(h, s, i),
      Or(InstRule(h, s, i), Or(UuidRule(s, i), Or(BytesRule(s, i), TextRule(s, i)))))))))
  }

  /** The alternatives of `value` before the collections. */
  function AtomRule(h: Host, s: string, i: nat): (r: Outcome<SpannedValue>)
    requires i <= |s|
    ensures Lexes(r, s, i)
  {
    Or(LiteralRule(h, s, i), Or(KeywordRule(s, i), SymbolRule(s, i)))
  }
}
