/** The recursive rules of the EDN grammar and the guarded entry point `parse::value` (edn/src/lib.rs). */
module Parser {
  import opened Spanned
  import opened Lexical
  import opened Depth

  /** Number of UTF-8 bytes before character `i`; what `position!()` reports. */
  function ByteOffset(s: string, i: nat): nat
    requires i <= |s|
  {
    if i == 0 then 0 else ByteOffset(s, i - 1) + |Utf8(s[i - 1])|
  }

  /** `value()`. Each level of brackets takes one unit of `stack`; entering one with none left overflows. */
  function ParseValue(h: Host, s: string, i: nat, stack: nat): (r: Outcome<ValueAndSpan>)
    requires i <= |s|
    ensures Advances(r, s, i)
    decreases |s| - i, 5
  {
    var start := Skip(s, i);
    match ParseInner(h, s, start, stack)
    case Match(v, end) =>
      Match(ValueAndSpan(v, NewSpan(ByteOffset(s, start), ByteOffset(s, end))), Skip(s, end))
    case NoMatch => NoMatch
    case Panic => Panic
    case Overflow => Overflow
  }

  /** The ordered choice inside `value()`. */
  function ParseInner(h: Host, s: string, i: nat, stack: nat): (r: Outcome<SpannedValue>)
    requires i <= |s|
    ensures Advances(r, s, i)
    decreases |s| - i, 4
  {
    Or(AtomRule(h, s, i), Or(ListRule(h, s, i, stack), Or(VectorRule(h, s, i, stack),
      Or(MapRule(h, s, i, stack), SetRule(h, s, i, stack)))))
  }

  function ListRule(h: Host, s: string, i: nat, stack: nat): (r: Outcome<SpannedValue>)
    requires i <= |s|
    ensures Advances(r, s, i)
    decreases |s| - i, 3
  {
    match Bracketed(h, s, i, "(", ')', stack)
    case Match(vs, j) => Match(SList(vs), j)
    case NoMatch => NoMatch
    case Panic => Panic
    case Overflow => Overflow
  }

  function VectorRule(h: Host, s: string, i: nat, stack: nat): (r: Outcome<SpannedValue>)
    requires i <= |s|
    ensures Advances(r, s, i)
    decreases |s| - i, 3
  {
    match Bracketed(h, s, i, "[", ']', stack)
    case Match(vs, j) => Match(SVector(vs), j)
    case NoMatch => NoMatch
    case Panic => Panic
    case Overflow => Overflow
  }

  function SetRule(h: Host, s: string, i: nat, stack: nat): (r: Outcome<SpannedValue>)
    requires i <= |s|
    ensures Advances(r, s, i)
    decreases |s| - i, 3
  {
    match Bracketed(h, s, i, "#{", '}', stack)
    case Match(vs, j) => Match(SSet(SpannedSetFromIter(vs)), j)
    case NoMatch => NoMatch
    case Panic => Panic
    case Overflow => Overflow
  }

  function MapRule(h: Host, s: string, i: nat, stack: nat): (r: Outcome<SpannedValue>)
    requires i <= |s|
    ensures Advances(r, s, i)
    decreases |s| - i, 3
  {
    match Braced(h, s, i, stack)
    case Match(kvs, j) => Match(SMap(SpannedMapFromIter(kvs)), j)
    case NoMatch => NoMatch
    case Panic => Panic
    case Overflow => Overflow
  }

  /** `"{" __ pair()* __ "}"` */
  function Braced(h: Host, s: string, i: nat, stack: nat): (r: Outcome<seq<SpannedEntry>>)
    requires i <= |s|
    ensures Advances(r, s, i)
    decreases |s| - i, 2
  {
    if !StartsWith(s, i, "{") then NoMatch
    else if stack == 0 then Overflow
    else Closed(s, ParsePairs(h, s, Skip(s, i + 1), stack - 1), '}')
  }

  /** `open __ value()* __ close` */
  function Bracketed(h: Host, s: string, i: nat, open: string, close: char, stack: nat): (r: Outcome<seq<ValueAndSpan>>)
    requires i <= |s| && open != ""
    ensures Advances(r, s, i)
    decreases |s| - i, 2
  {
    if !StartsWith(s, i, open) then NoMatch
    else if stack == 0 then Overflow
    else Closed(s, ParseMany(h, s, Skip(s, i + |open|), stack - 1), close)
  }

  /** The tail `__ close` of a collection rule. */
  function Closed<T>(s: string, body: Outcome<T>, close: char): (r: Outcome<T>)
    requires body.Match? ==> body.next <= |s|
    ensures r.Match? ==> body.Match? && body.value == r.value && body.next < r.next <= |s|
  {
    match body
    case Match(v, j) =>
      var e := Skip(s, j);
      if e < |s| && s[e] == close then Match(v, e + 1) else NoMatch
    case _ => body
  }

  /** `value()*` */
  function ParseMany(h: Host, s: string, i: nat, stack: nat): (r: Outcome<seq<ValueAndSpan>>)
    requires i <= |s|
    ensures r.Match? ==> i <= r.next <= |s|
    decreases |s| - i, 6
  {
    match ParseValue(h, s, i, stack)
    case NoMatch => Match([], i)
    case Match(v, j) =>
      (match ParseMany(h, s, j, stack)
       case Match(vs, k) => Match([v] + vs, k)
       case x => x)
    case Panic => Panic
    case Overflow => Overflow
  }

  /** `pair()` */
  function ParsePair(h: Host, s: string, i: nat, stack: nat): (r: Outcome<SpannedEntry>)
    requires i <= |s|
    ensures Advances(r, s, i)
    decreases |s| - i, 6
  {
    match ParseValue(h, s, i, stack)
    case NoMatch => NoMatch
    case Panic => Panic
    case Overflow => Overflow
    case Match(k, j) =>
      match ParseValue(h, s, j, stack)
      case NoMatch => NoMatch
      case Panic => Panic
      case Overflow => Overflow
      case Match(v, n) => Match(SpannedEntry(k, v), n)
  }

  /** A pair that is read is two values one after the other. */
  lemma PairIs(h: Host, s: string, i: nat, stack: nat, r: Outcome<SpannedEntry>)
    returns (k: Outcome<ValueAndSpan>, v: Outcome<ValueAndSpan>)
    requires i <= |s| && r == ParsePair(h, s, i, stack) && r.Match?
    ensures k == ParseValue(h, s, i, stack) && k.Match? && i < k.next <= |s|
    ensures v == ParseValue(h, s, k.next, stack) && v.Match? && r.value == SpannedEntry(k.value, v.value)
  {
    k := ParseValue(h, s, i, stack);
    v := ParseValue(h, s, k.next, stack);
  }

  /** `pair()*` */
  function ParsePairs(h: Host, s: string, i: nat, stack: nat): (r: Outcome<seq<SpannedEntry>>)
    requires i <= |s|
    ensures r.Match? ==> i <= r.next <= |s|
    decreases |s| - i, 7
  {
    match ParsePair(h, s, i, stack)
    case NoMatch => Match([], i)
    case Match(e, j) =>
      (match ParsePairs(h, s, j, stack)
       case Match(es, k) => Match([e] + es, k)
       case x => x)
    case Panic => Panic
    case Overflow => Overflow
  }

  /** The grammar accepts `s` as one value: the rule matches and nothing is left over. */
  ghost predicate Accepts(h: Host, s: string, stack: nat, v: ValueAndSpan) {
    ParseValue(h, s, 0, stack) == Match(v, |s|)
  }

  /** The grammar reads all of `s` as one value. */
  ghost predicate Whole(h: Host, s: string, stack: nat) {
    exists v :: Accepts(h, s, stack, v)
  }

  /** An action fails or the stack is exhausted. */
  predicate Fails<T>(r: Outcome<T>) {
    r.Panic? || r.Overflow?
  }

  datatype Parsed = Accepted(v: ValueAndSpan) | TooDeep | SyntaxError | Crashed

  /** `parse::value` on a stack that holds `stack` levels of brackets. */
  ghost function ParseTop(h: Host, s: string, stack: nat): Parsed {
    if !NestingOk(s, MAX_NESTING) then TooDeep else
    match ParseValue(h, s, 0, stack)
    case Match(v, j) => if j == |s| then Accepted(v) else SyntaxError
    case NoMatch => SyntaxError
    case Panic => Crashed
    case Overflow => Crashed
  }

  /** The entry point: the byte scan first, then the grammar. */
  method Parse(h: Host, s: string, stack: nat) returns (r: Parsed)
    ensures r == ParseTop(h, s, stack)
    ensures r.TooDeep? <==> !NestingOk(s, 256)
    ensures forall v :: r == Accepted(v) <==> NestingOk(s, 256) && Accepts(h, s, stack, v)
    ensures r.Crashed? <==> NestingOk(s, 256) && Fails(ParseValue(h, s, 0, stack))
    ensures r.SyntaxError? <==> NestingOk(s, 256) && !Fails(ParseValue(h, s, 0, stack)) && !Whole(h, s, stack)
  {
    ScanUtf8(s, MAX_NESTING);
    var tooDeep := CheckNesting(Encode(s), MAX_NESTING);
    if tooDeep.Some? {
      return TooDeep;
    }
    var read := ParseValue(h, s, 0, stack);
    assert read.Match? && read.next == |s| ==> Accepts(h, s, stack, read.value);
    match read {
      case Match(v, j) => r := if j == |s| then Accepted(v) else SyntaxError;
      case NoMatch => r := SyntaxError;
      case Panic => r := Crashed;
      case Overflow => r := Crashed;
    }
  }
}
