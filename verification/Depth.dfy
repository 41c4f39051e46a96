/** The nesting guard that runs before the grammar (edn/src/depth.rs). */
module Depth {
  import opened Prelude

  const MAX_NESTING: nat := 256

  datatype Lex = Code | Str | StrEscape | Comment

  datatype ScanState = ScanState(lex: Lex, depth: nat)

  predicate IsOpen(c: int) { c == '(' as int || c == '[' as int || c == '{' as int }

  predicate IsClose(c: int) { c == ')' as int || c == ']' as int || c == '}' as int }

  /** One step of the scanner on a byte or an ASCII code point. Closers saturate at zero. */
  function Step(st: ScanState, c: int): ScanState {
    match st.lex
    case Code =>
      if IsOpen(c) then st.(depth := st.depth + 1)
      else if IsClose(c) then st.(depth := if st.depth == 0 then 0 else st.depth - 1)
      else if c == '"' as int then st.(lex := Str)
      else if c == ';' as int then st.(lex := Comment)
      else st
    case Str =>
      if c == '\\' as int then st.(lex := StrEscape)
      else if c == '"' as int then st.(lex := Code)
      else st
    case StrEscape => st.(lex := Str)
    case Comment => if c == '\n' as int || c == '\r' as int then st.(lex := Code) else st
  }

  /** State of the scanner before byte `j`. */
  function AtByte(bytes: seq<Byte>, j: nat): ScanState
    requires j <= |bytes|
  {
    if j == 0 then ScanState(Code, 0) else Step(AtByte(bytes, j - 1), bytes[j - 1])
  }

  /** The scanner. `None` accepts; `Some(offset)` is the error, at the opener that goes too deep. It
      accepts exactly when no prefix nests deeper than `max`, and the error names the first such opener. */
  method CheckNesting(bytes: seq<Byte>, max: nat) returns (r: Option<nat>)
    ensures r.None? <==> BytesOk(bytes, max)
    ensures r.Some? ==>
              && r.value < |bytes| && IsOpen(bytes[r.value])
              && AtByte(bytes, r.value) == ScanState(Code, max)
              && forall j :: 0 <= j <= r.value ==> AtByte(bytes, j).depth <= max
  {
    var lex, depth: nat := Code, 0;
    for offset := 0 to |bytes|
      invariant AtByte(bytes, offset) == ScanState(lex, depth)
      invariant forall j :: 0 <= j <= offset ==> AtByte(bytes, j).depth <= max
    {
      var b := bytes[offset];
      match lex {
        case Code =>
          if IsOpen(b) {
            depth := depth + 1;
            if depth > max {
              assert AtByte(bytes, offset + 1).depth > max;
              return Some(offset);
            }
          } else if IsClose(b) {
            depth := if depth == 0 then 0 else depth - 1;
          } else if b == '"' as int {
            lex := Str;
          } else if b == ';' as int {
            lex := Comment;
          }
        case Str =>
          if b == '\\' as int {
            lex := StrEscape;
          } else if b == '"' as int {
            lex := Code;
          }
        case StrEscape =>
          lex := Str;
        case Comment =>
          if b == '\n' as int || b == '\r' as int {
            lex := Code;
          }
      }
      assert AtByte(bytes, offset + 1) == Step(AtByte(bytes, offset), b);
    }
    r := None;
  }

  // ---- The same scan over characters ----

  /** All states of the scanner on `s`, the initial one first. */
  function Scan(s: string): (r: seq<ScanState>)
    ensures |r| == |s| + 1
  {
    if s == "" then [ScanState(Code, 0)]
    else
      var n := |s| - 1;
      var r := Scan(s[..n]);
      r + [Step(r[n], s[n] as int)]
  }

  /** State of the scanner before character `j`. */
  function At(s: string, j: nat): ScanState
    requires j <= |s|
  {
    Scan(s)[j]
  }

  lemma {:induction false} AtPrefix(s: string, n: nat, j: nat)
    requires j <= n <= |s|
    ensures At(s[..n], j) == At(s, j)
  {
    if n < |s| {
      var m := |s| - 1;
      assert s[..m][..n] == s[..n];
      AtPrefix(s[..m], n, j);
    } else {
      assert s[..n] == s;
    }
  }

  lemma StartsInCode(s: string)
    ensures At(s, 0) == ScanState(Code, 0)
  {
    AtPrefix(s, 0, 0);
  }

  lemma NextState(s: string, j: nat)
    requires j < |s|
    ensures At(s, j + 1) == Step(At(s, j), s[j] as int)
  {
    var t := s[..j + 1];
    AtPrefix(s, j + 1, j + 1);
    AtPrefix(s, j + 1, j);
    AtPrefix(t, j, j);
  }

  function DepthAt(s: string, j: nat): nat
    requires j <= |s|
  {
    At(s, j).depth
  }

  ghost predicate NestingOk(s: string, max: nat) {
    forall j :: 0 <= j <= |s| ==> DepthAt(s, j) <= max
  }

  function Utf8(c: char): (r: seq<Byte>)
    ensures c as int < 128 ==> r == [c as int]
    ensures c as int >= 128 ==> forall k :: 0 <= k < |r| ==> r[k] >= 128
    ensures 1 <= |r| <= 4
  {
    var n := c as int;
    if n < 0x80 then [n]
    else if n < 0x800 then [0xC0 + n / 64, 0x80 + n % 64]
    else if n < 0x1_0000 then [0xE0 + n / 4096, 0x80 + n / 64 % 64, 0x80 + n % 64]
    else [0xF0 + n / 262144, 0x80 + n / 4096 % 64, 0x80 + n / 64 % 64, 0x80 + n % 64]
  }

  function Encode(s: string): (r: seq<Byte>)
    ensures |r| >= |s|
  {
    if s == "" then [] else Encode(s[..|s| - 1]) + Utf8(s[|s| - 1])
  }

  lemma {:induction false} AtBytePrefix(a: seq<Byte>, b: seq<Byte>, j: nat)
    requires j <= |a|
    ensures AtByte(a + b, j) == AtByte(a, j)
  {
    if j > 0 {
      AtBytePrefix(a, b, j - 1);
      assert (a + b)[j - 1] == a[j - 1];
    }
  }

  /** Bytes of a multi-byte character move the scanner at most once, and never change the depth. */
  lemma {:induction false} AtByteWide(a: seq<Byte>, b: seq<Byte>, c: int, j: nat)
    requires |a| < j <= |a + b| && c >= 128 && forall k :: 0 <= k < |b| ==> b[k] >= 128
    ensures AtByte(a + b, j) == Step(AtByte(a, |a|), c)
  {
    assert (a + b)[j - 1] == b[j - 1 - |a|];
    if j == |a| + 1 {
      AtBytePrefix(a, b, |a|);
    } else {
      AtByteWide(a, b, c, j - 1);
    }
  }

  ghost predicate BytesOk(bytes: seq<Byte>, max: nat) {
    forall j :: 0 <= j <= |bytes| ==> AtByte(bytes, j).depth <= max
  }

  /** While the bytes of the last character are read, the scanner is in the state after that character. */
  lemma {:induction false} AtLastChar(s: string, n: nat, j: nat)
    requires |s| == n + 1 && |Encode(s[..n])| < j <= |Encode(s)|
    requires AtByte(Encode(s[..n]), |Encode(s[..n])|) == At(s[..n], n)
    ensures AtByte(Encode(s), j) == At(s, |s|)
  {
    var a, b, c := Encode(s[..n]), Utf8(s[n]), s[n] as int;
    AtPrefix(s, n, n);
    NextState(s, n);
    if c >= 128 {
      AtByteWide(a, b, c, j);
    } else {
      AtBytePrefix(a, b, |a|);
      assert (a + b)[|a|] == b[0];
    }
  }

  /** Scanning the UTF-8 bytes of a string is scanning its characters. */
  lemma {:induction false} ScanUtf8(s: string, max: nat)
    ensures AtByte(Encode(s), |Encode(s)|) == At(s, |s|)
    ensures BytesOk(Encode(s), max) <==> NestingOk(s, max)
  {
    if s != "" {
      var n := |s| - 1;
      var a, all := Encode(s[..n]), Encode(s);
      ScanUtf8(s[..n], max);
      forall j | |a| < j <= |all| ensures AtByte(all, j) == At(s, |s|) {
        AtLastChar(s, n, j);
      }
      forall j | 0 <= j <= |a| ensures AtByte(all, j) == AtByte(a, j) {
        AtBytePrefix(a, Utf8(s[n]), j);
      }
      forall j | 0 <= j <= n ensures DepthAt(s, j) == DepthAt(s[..n], j) {
        AtPrefix(s, n, j);
      }
      assert |a| < |all|;
      assert BytesOk(all, max) <==> BytesOk(a, max) && At(s, |s|).depth <= max by {
        assert AtByte(all, |all|) == At(s, |s|);
      }
      assert NestingOk(s, max) <==> NestingOk(s[..n], max) && DepthAt(s, |s|) <= max;
    }
  }
}
