/** The few operations of Go's `strings` and `strconv` packages that the modelled
    code relies on, with the laws the proofs need. */
module Strings {

  datatype Option<+T> = None | Some(value: T)

  /** White space as Go's unicode.IsSpace has it. */
  predicate IsSpace(c: char) {
    || '\t' <= c <= '\r'
    || c == ' ' || c == '\U{85}' || c == '\U{A0}' || c == '\U{1680}'
    || '\U{2000}' <= c <= '\U{200A}'
    || c == '\U{2028}' || c == '\U{2029}' || c == '\U{202F}' || c == '\U{205F}' || c == '\U{3000}'
  }

  // ---------------------------------------------------------------- trimming

  function TrimLeft(s: string, cut: char -> bool): (r: string)
    ensures r != "" ==> !cut(r[0])
    ensures |r| <= |s|
  {
    if s != "" && cut(s[0]) then TrimLeft(s[1..], cut) else s
  }

  function TrimRight(s: string, cut: char -> bool): (r: string)
    ensures r != "" ==> !cut(r[|r| - 1])
    ensures |r| <= |s| && r == s[..|r|]
  {
    if s != "" && cut(s[|s| - 1]) then TrimRight(s[..|s| - 1], cut) else s
  }

  /** Removes the leading and trailing characters in `cut`. */
  function Trim(s: string, cut: char -> bool): (r: string)
    ensures r != "" ==> !cut(r[0]) && !cut(r[|r| - 1])
    ensures |r| <= |s|
    ensures (s == "" || (!cut(s[0]) && !cut(s[|s| - 1]))) <==> r == s
  {
    var left := TrimLeft(s, cut);
    var r := TrimRight(left, cut);
    r
  }

  function TrimSpace(s: string): (r: string)
    ensures r != "" ==> !IsSpace(r[0]) && !IsSpace(r[|r| - 1])
    ensures (s == "" || (!IsSpace(s[0]) && !IsSpace(s[|s| - 1]))) <==> r == s
  {
    Trim(s, IsSpace)
  }

  lemma {:induction false} TrimLeftOf(pad: string, rest: string, cut: char -> bool)
    requires forall c :: c in pad ==> cut(c)
    ensures TrimLeft(pad + rest, cut) == TrimLeft(rest, cut)
  {
    if pad == "" {
      assert pad + rest == rest;
    } else {
      assert (pad + rest)[1..] == pad[1..] + rest;
      assert pad[0] in pad;
      TrimLeftOf(pad[1..], rest, cut);
    }
  }

  lemma {:induction false} TrimRightOf(rest: string, pad: string, cut: char -> bool)
    requires forall c :: c in pad ==> cut(c)
    ensures TrimRight(rest + pad, cut) == TrimRight(rest, cut)
  {
    if pad == "" {
      assert rest + pad == rest;
    } else {
      var n := |pad| - 1;
      assert (rest + pad)[..|rest| + n] == rest + pad[..n];
      assert pad[n] in pad;
      TrimRightOf(rest, pad[..n], cut);
    }
  }

  /** Trimming takes off exactly the padding. */
  lemma TrimOf(left: string, core: string, right: string, cut: char -> bool)
    requires forall c :: c in left || c in right ==> cut(c)
    requires core != "" && !cut(core[0]) && !cut(core[|core| - 1])
    ensures Trim(left + core + right, cut) == core
  {
    assert left + core + right == left + (core + right);
    TrimLeftOf(left, core + right, cut);
    TrimRightOf(core, right, cut);
  }

  predicate HasPrefix(s: string, p: string) {
    p <= s
  }

  predicate HasSuffix(s: string, p: string) {
    |p| <= |s| && s[|s| - |p|..] == p
  }

  // ------------------------------------------------------- splitting, joining

  function Split(s: string, sep: char): (parts: seq<string>)
    ensures |parts| >= 1
  {
    if s == "" then [""]
    else if s[0] == sep then [""] + Split(s[1..], sep)
    else var rest := Split(s[1..], sep); [[s[0]] + rest[0]] + rest[1..]
  }

  function Join(parts: seq<string>, sep: char): string {
    if |parts| == 0 then ""
    else if |parts| == 1 then parts[0]
    else parts[0] + [sep] + Join(parts[1..], sep)
  }

  predicate FreeOf(parts: seq<string>, sep: char) {
    forall i :: 0 <= i < |parts| ==> sep !in parts[i]
  }

  lemma {:induction false} SplitFree(s: string, sep: char)
    ensures FreeOf(Split(s, sep), sep)
  {
    if s != "" { SplitFree(s[1..], sep); }
  }

  lemma {:induction false} JoinSplit(s: string, sep: char)
    ensures Join(Split(s, sep), sep) == s
  {
    if s != "" {
      JoinSplit(s[1..], sep);
      var rest := Split(s[1..], sep);
      if s[0] == sep {
        assert ([""] + rest)[1..] == rest;
      } else {
        assert ([[s[0]] + rest[0]] + rest[1..])[1..] == rest[1..];
      }
    }
  }

  lemma {:induction false} SplitWord(s: string, sep: char)
    requires sep !in s
    ensures Split(s, sep) == [s]
  {
    if s != "" {
      SplitWord(s[1..], sep);
      assert s == [s[0]] + s[1..];
    }
  }

  lemma {:induction false} SplitConcat(a: string, b: string, sep: char)
    ensures Split(a + [sep] + b, sep) == Split(a, sep) + Split(b, sep)
  {
    var s := a + [sep] + b;
    if a == "" {
      assert s[1..] == b;
    } else {
      assert s[1..] == a[1..] + [sep] + b;
      SplitConcat(a[1..], b, sep);
    }
  }

  lemma {:induction false} JoinConcat(a: seq<string>, b: seq<string>, sep: char)
    requires |a| > 0 && |b| > 0
    ensures Join(a + b, sep) == Join(a, sep) + [sep] + Join(b, sep)
  {
    if |a| == 1 {
      assert (a + b)[1..] == b;
    } else {
      assert (a + b)[1..] == a[1..] + b;
      JoinConcat(a[1..], b, sep);
    }
  }

  lemma {:induction false} SplitJoin(parts: seq<string>, sep: char)
    requires |parts| > 0 && FreeOf(parts, sep)
    ensures Split(Join(parts, sep), sep) == parts
  {
    SplitWord(parts[0], sep);
    if |parts| > 1 {
      SplitJoin(parts[1..], sep);
      SplitConcat(parts[0], Join(parts[1..], sep), sep);
      assert [parts[0]] + parts[1..] == parts;
    } else {
      assert parts == [parts[0]];
    }
  }

  // -------------------------------------------------------------- lower case

  /** Lower case of one character: the ASCII letters, and the two other
      characters whose lower case is an ASCII letter. */
  function LowerChar(c: char): char {
    if 'A' <= c <= 'Z' then c - 'A' + 'a'
    else if c == '\U{0130}' then 'i'
    else if c == '\U{212A}' then 'k'
    else c
  }

  function ToLower(s: string): (r: string)
    ensures |r| == |s|
    ensures forall i :: 0 <= i < |s| ==> r[i] == LowerChar(s[i])
  {
    seq(|s|, i requires 0 <= i < |s| => LowerChar(s[i]))
  }

  /** Trimming and lowering, which is what the code does to codes it compares. */
  function Fold(s: string): string {
    ToLower(TrimSpace(s))
  }

  lemma LowerCharKeepsSpace(c: char)
    ensures IsSpace(LowerChar(c)) <==> IsSpace(c)
  {
  }

  lemma FoldIdempotent(s: string)
    ensures Fold(Fold(s)) == Fold(s)
  {
    var t := TrimSpace(s);
    var f := ToLower(t);
    if f != "" {
      LowerCharKeepsSpace(t[0]);
      LowerCharKeepsSpace(t[|t| - 1]);
    }
    assert TrimSpace(f) == f;
    assert ToLower(f) == f;
  }

  /** White space around is dropped, and every character in between lowered. */
  lemma FoldMeans(left: string, core: string, right: string)
    requires forall c :: c in left || c in right ==> IsSpace(c)
    requires core != "" && !IsSpace(core[0]) && !IsSpace(core[|core| - 1])
    ensures |Fold(left + core + right)| == |core|
    ensures forall i :: 0 <= i < |core| ==>
              Fold(left + core + right)[i] ==
                if 'A' <= core[i] <= 'Z' then core[i] + 32 as char
                else match core[i] case '\U{0130}' => 'i' case '\U{212A}' => 'k' case c => c
  {
    TrimOf(left, core, right, IsSpace);
    assert Fold(left + core + right) == ToLower(core);
  }

  // ------------------------------------------------------------- byte length

  /** Bytes of the UTF-8 encoding of a character. */
  function CharBytes(c: char): (n: nat)
    ensures n >= 1
  {
    if c < '\U{80}' then 1 else if c < '\U{800}' then 2 else if c < '\U{10000}' then 3 else 4
  }

  /** Go's len() of a string: its length in bytes. */
  function ByteLen(s: string): nat {
    if s == "" then 0 else CharBytes(s[0]) + ByteLen(s[1..])
  }

  lemma {:induction false} ByteLenConcat(a: string, b: string)
    ensures ByteLen(a + b) == ByteLen(a) + ByteLen(b)
  {
    if a == "" {
      assert a + b == b;
    } else {
      assert (a + b)[1..] == a[1..] + b;
      ByteLenConcat(a[1..], b);
    }
  }

  /** One character more counts with the length of its encoding. */
  lemma BytesOfNext(s: string, c: char)
    ensures ByteLen(s + [c]) ==
              ByteLen(s) + if c as int <= 0x7F then 1 else if c as int <= 0x7FF then 2
                           else if c as int <= 0xFFFF then 3 else 4
  {
    ByteLenConcat(s, [c]);
  }

  // -------------------------------------------------------- comparing strings

  /** Byte order of strings, which for UTF-8 is the order of the code points. */
  predicate Less(a: string, b: string) {
    b != "" && (a == "" || a[0] < b[0] || (a[0] == b[0] && Less(a[1..], b[1..])))
  }

  /** The strings agree up to `k`, where the first ends or has the smaller character. */
  predicate DiffersAt(a: string, b: string, k: nat) {
    k <= |a| && k < |b| && a[..k] == b[..k] && (k == |a| || a[k] < b[k])
  }

  lemma {:induction false} LessMeans(a: string, b: string)
    ensures Less(a, b) <==> exists k: nat :: DiffersAt(a, b, k)
  {
    if b == "" {
    } else if a == "" || a[0] < b[0] {
      assert DiffersAt(a, b, 0);
    } else if a[0] == b[0] {
      LessMeans(a[1..], b[1..]);
      if k: nat :| DiffersAt(a[1..], b[1..], k) {
        assert a[..k + 1] == [a[0]] + a[1..][..k] && b[..k + 1] == [b[0]] + b[1..][..k];
        assert DiffersAt(a, b, k + 1);
      }
      if k: nat :| DiffersAt(a, b, k) {
        assert a[1..][..k - 1] == a[..k][1..] && b[1..][..k - 1] == b[..k][1..];
        assert DiffersAt(a[1..], b[1..], k - 1);
      }
    } else {
      forall k: nat
        ensures !DiffersAt(a, b, k)
      {
        if 0 < k <= |a| && k < |b| { assert a[..k][0] != b[..k][0]; }
      }
    }
  }

  lemma {:induction false} LessTotal(a: string, b: string)
    ensures Less(a, b) || Less(b, a) || a == b
  {
    if a != "" && b != "" && a[0] == b[0] {
      LessTotal(a[1..], b[1..]);
      if a[1..] == b[1..] { assert a == [a[0]] + a[1..] == b; }
    }
  }

  lemma {:induction false} LessAsym(a: string, b: string)
    ensures !(Less(a, b) && Less(b, a))
  {
    if a != "" && b != "" { LessAsym(a[1..], b[1..]); }
  }

  lemma {:induction false} LessTrans(a: string, b: string, c: string)
    requires Less(a, b) && Less(b, c)
    ensures Less(a, c)
  {
    if a != "" && a[0] == b[0] == c[0] { LessTrans(a[1..], b[1..], c[1..]); }
  }
}
