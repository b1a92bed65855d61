/**
 base32Encode and base32Decode (packages/core/auth/totp.ts, the alphabet of section 6 of RFC 4648).

 The accumulator is a 32-bit word that is never masked: old bits fall off the top, and only its
 low `bits` bits matter. Both directions are specified by the bit strings they carry.
 */
module Base32 {
  import opened Wrappers

  const ALPHABET := "ABCDEFGHIJKLMNOPQRSTUVWXYZ234567"
  const WORD := 0x1_0000_0000

  newtype byte = b: int | 0 <= b < 256
  type uint32 = v: int | 0 <= v < WORD
  type Symbol = s: int | 0 <= s < 32

  function Pow2(k: nat): (r: nat)
    ensures r >= 1
  {
    if k == 0 then 1 else 2 * Pow2(k - 1)
  }

  /** `(v << k) | x` for an `x` of at most `k` bits: the top `k` bits of `v` are shifted out and lost. */
  function ShiftIn(v: uint32, k: nat, x: nat): uint32
    requires (k == 5 && x < 32) || (k == 8 && x < 256)
  {
    if k == 5 then (v % 0x800_0000) * 32 + x else (v % 0x100_0000) * 256 + x
  }

  /** `v >>> k`. */
  function ShiftRight(v: nat, k: nat): (r: nat)
    ensures r <= v
  {
    if k == 0 then v else ShiftRight(v / 2, k - 1)
  }

  /** The low `n` bits of `v`, most significant first. */
  function Low(v: nat, n: nat): (r: seq<bool>)
    ensures |r| == n
  {
    if n == 0 then [] else Low(v / 2, n - 1) + [v % 2 == 1]
  }

  function BitsOf(bytes: seq<byte>): (r: seq<bool>)
    ensures |r| == 8 * |bytes|
  {
    if bytes == [] then [] else BitsOf(bytes[..|bytes| - 1]) + Low(bytes[|bytes| - 1] as int, 8)
  }

  function SymbolBits(symbols: seq<Symbol>): (r: seq<bool>)
    ensures |r| == 5 * |symbols|
  {
    if symbols == [] then [] else SymbolBits(symbols[..|symbols| - 1]) + Low(symbols[|symbols| - 1], 5)
  }

  /** RFC 4648: the symbols spell the bytes' bits, topped up with fewer than five zero bits. */
  ghost predicate Encodes(symbols: seq<Symbol>, bytes: seq<byte>) {
    exists pad :: SymbolBits(symbols) == BitsOf(bytes) + pad && |pad| < 5 && true !in pad
  }

  /** The bytes are all the whole bytes the symbols spell. */
  ghost predicate Decodes(symbols: seq<Symbol>, bytes: seq<byte>) {
    exists rest :: SymbolBits(symbols) == BitsOf(bytes) + rest && |rest| < 8
  }

  // ---------------------------------------------------------------- the accumulator

  lemma Twice(a: nat, p: nat, b: nat)
    ensures (a * (2 * p) + b) / 2 == a * p + b / 2 && (a * (2 * p) + b) % 2 == b % 2
  {
    assert a * (2 * p) == 2 * (a * p);
  }

  lemma {:induction false} LowIgnoresHighBits(a: nat, b: nat, m: nat, n: nat)
    requires n <= m
    ensures Low(a * Pow2(m) + b, n) == Low(b, n)
  {
    if n > 0 {
      Twice(a, Pow2(m - 1), b);
      LowIgnoresHighBits(a, b / 2, m - 1, n - 1);
    }
  }

  lemma {:induction false} LowAppend(v: nat, b: nat, k: nat, n: nat)
    requires b < Pow2(k)
    ensures Low(v * Pow2(k) + b, n + k) == Low(v, n) + Low(b, k)
  {
    if k > 0 {
      Twice(v, Pow2(k - 1), b);
      LowAppend(v, b / 2, k - 1, n);
    }
  }

  lemma EightMore(k: nat)
    ensures Pow2(k + 8) == 256 * Pow2(k)
  {
    assert Pow2(k + 2) == 4 * Pow2(k);
    assert Pow2(k + 4) == 4 * Pow2(k + 2);
    assert Pow2(k + 6) == 4 * Pow2(k + 4);
    assert Pow2(k + 8) == 4 * Pow2(k + 6);
  }

  lemma PowersOfTwo()
    ensures Pow2(5) == 32 && Pow2(8) == 256 && Pow2(32) == WORD
  {
    assert Pow2(2) == 4 && Pow2(4) == 16;
    EightMore(0);
    EightMore(8);
    EightMore(16);
    EightMore(24);
  }

  /** Shifting a byte or a symbol in appends its bits to the pending ones, whatever was lost at the top. */
  lemma ShiftInAppends(v: uint32, k: nat, x: nat, n: nat)
    requires (k == 5 && x < 32) || (k == 8 && x < 256)
    requires n <= 8
    ensures Low(ShiftIn(v, k, x), n + k) == Low(v, n) + Low(x, k)
  {
    PowersOfTwo();
    var lost := if k == 5 then v / 0x800_0000 else v / 0x100_0000;
    assert v * Pow2(k) + x == lost * Pow2(32) + ShiftIn(v, k, x);
    LowIgnoresHighBits(lost, ShiftIn(v, k, x), 32, n + k);
    LowAppend(v, x, k, n);
  }

  /** Taking the top `n` pending bits out leaves the others pending. */
  lemma {:induction false} ShiftRightSplits(v: nat, k: nat, n: nat)
    ensures Low(v, n + k) == Low(ShiftRight(v, k), n) + Low(v, k)
  {
    if k > 0 {
      ShiftRightSplits(v / 2, k - 1, n);
    }
  }

  lemma MaskKeepsLow(v: nat)
    ensures Low(v % 32, 5) == Low(v, 5) && Low(v % 256, 8) == Low(v, 8)
  {
    PowersOfTwo();
    assert v == (v / 32) * Pow2(5) + v % 32;
    LowIgnoresHighBits(v / 32, v % 32, 5, 5);
    assert v == (v / 256) * Pow2(8) + v % 256;
    LowIgnoresHighBits(v / 256, v % 256, 8, 8);
  }

  lemma {:induction false} LowInjective(a: nat, b: nat, n: nat)
    requires a < Pow2(n) && b < Pow2(n) && Low(a, n) == Low(b, n)
    ensures a == b
  {
    if n > 0 {
      assert Low(a, n)[n - 1] == (a % 2 == 1) && Low(b, n)[n - 1] == (b % 2 == 1);
      assert Low(a, n)[..n - 1] == Low(a / 2, n - 1) && Low(b, n)[..n - 1] == Low(b / 2, n - 1);
      LowInjective(a / 2, b / 2, n - 1);
    }
  }

  lemma {:induction false} LowOfZero(n: nat)
    ensures true !in Low(0, n)
  {
    if n > 0 {
      LowOfZero(n - 1);
    }
  }

  // ---------------------------------------------------------------- bit strings determine symbols and bytes

  lemma {:induction false} BitsOfInjective(a: seq<byte>, b: seq<byte>)
    requires BitsOf(a) == BitsOf(b)
    ensures a == b
  {
    if a != [] {
      var i := |a| - 1;
      assert |b| == |a|;
      assert BitsOf(a)[..8 * i] == BitsOf(a[..i]) && BitsOf(b)[..8 * i] == BitsOf(b[..i]);
      assert BitsOf(a)[8 * i..] == Low(a[i] as int, 8) && BitsOf(b)[8 * i..] == Low(b[i] as int, 8);
      BitsOfInjective(a[..i], b[..i]);
      PowersOfTwo();
      LowInjective(a[i] as int, b[i] as int, 8);
      assert a == a[..i] + [a[i]] && b == b[..i] + [b[i]];
    }
  }

  lemma {:induction false} SymbolBitsInjective(a: seq<Symbol>, b: seq<Symbol>)
    requires SymbolBits(a) == SymbolBits(b)
    ensures a == b
  {
    if a != [] {
      var i := |a| - 1;
      assert |b| == |a|;
      assert SymbolBits(a)[..5 * i] == SymbolBits(a[..i]) && SymbolBits(b)[..5 * i] == SymbolBits(b[..i]);
      assert SymbolBits(a)[5 * i..] == Low(a[i], 5) && SymbolBits(b)[5 * i..] == Low(b[i], 5);
      SymbolBitsInjective(a[..i], b[..i]);
      PowersOfTwo();
      LowInjective(a[i], b[i], 5);
      assert a == a[..i] + [a[i]] && b == b[..i] + [b[i]];
    }
  }

  /** Decoding what was encoded gives the bytes back; n bytes take ceil(8n/5) symbols. */
  lemma RoundTrip(symbols: seq<Symbol>, bytes: seq<byte>, decoded: seq<byte>)
    requires Encodes(symbols, bytes) && Decodes(symbols, decoded)
    ensures decoded == bytes && |symbols| == (8 * |bytes| + 4) / 5
  {
    var pad :| SymbolBits(symbols) == BitsOf(bytes) + pad && |pad| < 5 && true !in pad;
    var rest :| SymbolBits(symbols) == BitsOf(decoded) + rest && |rest| < 8;
    assert |decoded| == |bytes|;
    assert BitsOf(bytes) == SymbolBits(symbols)[..8 * |bytes|] == BitsOf(decoded);
    BitsOfInjective(bytes, decoded);
  }

  lemma AllZero(a: seq<bool>, b: seq<bool>)
    requires |a| == |b| && true !in a && true !in b
    ensures a == b
  {
    forall i | 0 <= i < |a| ensures a[i] == b[i] {
      assert a[i] in a && b[i] in b;
    }
  }

  /**
   The other direction is exact too: re-encoding what was decoded gives the symbols back iff fewer
   than five bits were left over and all of them were zero, that is, iff no symbol was pure padding
   and the unused bits of the last one were clear.
   */
  lemma ReencodeIffCanonical(symbols: seq<Symbol>, bytes: seq<byte>, again: seq<Symbol>)
    requires Decodes(symbols, bytes) && Encodes(again, bytes)
    ensures again == symbols <==>
            5 * |symbols| - 8 * |bytes| < 5 && true !in SymbolBits(symbols)[8 * |bytes|..]
  {
    var rest :| SymbolBits(symbols) == BitsOf(bytes) + rest && |rest| < 8;
    var pad :| SymbolBits(again) == BitsOf(bytes) + pad && |pad| < 5 && true !in pad;
    assert SymbolBits(symbols)[8 * |bytes|..] == rest;
    if |rest| < 5 && true !in rest {
      assert |again| == |symbols|;
      AllZero(rest, pad);
      SymbolBitsInjective(again, symbols);
    }
    if again == symbols {
      assert SymbolBits(again)[8 * |bytes|..] == pad;
    }
  }

  // ---------------------------------------------------------------- text

  function Upper(c: char): char {
    if 'a' <= c <= 'z' then c - 'a' + 'A' else c
  }

  predicate IsSeparator(c: char) {
    c == ' ' || '\t' <= c <= '\r' || c == '-'
  }

  /** Drops the spaces and hyphens a person types. */
  function StripSeparators(s: string): (r: string)
    ensures forall i :: 0 <= i < |r| ==> !IsSeparator(r[i])
    ensures (forall i :: 0 <= i < |s| ==> !IsSeparator(s[i])) ==> r == s
  {
    if s == "" then ""
    else if IsSeparator(s[0]) then StripSeparators(s[1..])
    else [s[0]] + StripSeparators(s[1..])
  }

  function StripPadding(s: string): string {
    if s != "" && s[|s| - 1] == '=' then StripPadding(s[..|s| - 1]) else s
  }

  function UpperAll(s: string): (r: string)
    ensures |r| == |s| && forall i :: 0 <= i < |s| ==> r[i] == Upper(s[i])
  {
    seq(|s|, i requires 0 <= i < |s| => Upper(s[i]))
  }

  function Clean(s: string): string {
    UpperAll(StripPadding(StripSeparators(s)))
  }

  function IndexFrom(c: char, from: nat): (r: Option<Symbol>)
    requires from < 32
    ensures r.Some? ==> from <= r.value && ALPHABET[r.value] == c
    ensures r.None? ==> forall i :: from <= i < 32 ==> ALPHABET[i] != c
    decreases 32 - from
  {
    if ALPHABET[from] == c then Some(from) else if from == 31 then None else IndexFrom(c, from + 1)
  }

  /** BASE32_ALPHABET.indexOf(c), None for -1. */
  function IndexOf(c: char): Option<Symbol> {
    IndexFrom(c, 0)
  }

  /** Separators go and every other character stays, in order: part by part, and character by character. */
  lemma {:induction false} StripSplits(a: string, b: string)
    ensures StripSeparators(a + b) == StripSeparators(a) + StripSeparators(b)
  {
    if a == "" {
      assert a + b == b;
    } else {
      StripSplits(a[1..], b);
      assert (a + b)[1..] == a[1..] + b;
    }
  }

  lemma StripOne(c: char)
    ensures StripSeparators([c]) == if c == ' ' || c == '-' || '\t' <= c <= '\r' then "" else [c]
  {
    assert [c][1..] == "";
  }

  /** Only `=` signs at the end go, and all of them. */
  lemma {:induction false} StripPaddingDropsTheTail(s: string)
    ensures var r := StripPadding(s);
            && |r| <= |s| && r == s[..|r|] && (r != "" ==> r[|r| - 1] != '=')
            && forall i :: |r| <= i < |s| ==> s[i] == '='
  {
    if s != "" && s[|s| - 1] == '=' {
      StripPaddingDropsTheTail(s[..|s| - 1]);
    }
  }

  lemma UpperOnlyRaisesLetters(c: char)
    ensures 'a' <= c <= 'z' ==> 'A' <= Upper(c) <= 'Z' && Upper(c) as int - 'A' as int == c as int - 'a' as int
    ensures !('a' <= c <= 'z') ==> Upper(c) == c
  {
  }

  lemma AlphabetLetters(s: Symbol)
    ensures ALPHABET[s] == if s < 26 then 'A' + (s as char) else '2' + ((s - 26) as char)
  {
  }

  lemma IndexOfLetter(s: Symbol)
    ensures IndexOf(ALPHABET[s]) == Some(s)
  {
    var t := IndexOf(ALPHABET[s]).value;
    AlphabetLetters(s);
    AlphabetLetters(t);
  }

  /** The symbols as text. */
  function Text(symbols: seq<Symbol>): (r: string)
    ensures |r| == |symbols|
  {
    if symbols == [] then "" else Text(symbols[..|symbols| - 1]) + [ALPHABET[symbols[|symbols| - 1]]]
  }

  lemma TextSnoc(symbols: seq<Symbol>, s: Symbol)
    ensures Text(symbols + [s]) == Text(symbols) + [ALPHABET[s]]
  {
    assert (symbols + [s])[..|symbols|] == symbols;
  }

  lemma {:induction false} TextAt(symbols: seq<Symbol>, i: nat)
    requires i < |symbols|
    ensures Text(symbols)[i] == ALPHABET[symbols[i]]
  {
    if i < |symbols| - 1 {
      TextAt(symbols[..|symbols| - 1], i);
    }
  }

  lemma TextInjective(a: seq<Symbol>, b: seq<Symbol>)
    requires Text(a) == Text(b)
    ensures a == b
  {
    assert |a| == |b|;
    forall i | 0 <= i < |a| ensures a[i] == b[i] {
      TextAt(a, i);
      TextAt(b, i);
      IndexOfLetter(a[i]);
      IndexOfLetter(b[i]);
    }
  }

  lemma TextIsClean(symbols: seq<Symbol>)
    ensures Clean(Text(symbols)) == Text(symbols)
  {
    var s := Text(symbols);
    forall i | 0 <= i < |s| ensures !IsSeparator(s[i]) && s[i] != '=' && Upper(s[i]) == s[i] {
      TextAt(symbols, i);
      AlphabetLetters(symbols[i]);
    }
  }

  lemma WordOfFives(x: nat)
    ensures x % WORD % 32 == x % 32
  {
  }

  lemma PadBits(v: uint32, bits: nat)
    requires 1 <= bits <= 4
    ensures Low((v * Pow2(5 - bits)) % WORD % 32, 5) == Low(v, bits) + Low(0, 5 - bits)
  {
    var x := v * Pow2(5 - bits);
    WordOfFives(x);
    MaskKeepsLow(x);
    LowAppend(v, 0, 5 - bits, bits);
  }

  lemma Regroup(a: seq<bool>, b: seq<bool>, c: seq<bool>)
    ensures a + (b + c) == a + b + c
  {
  }

  /** `value = (value << 8) | byte`, with `bits` bits pending before. */
  method PushByte(v: uint32, bits: nat, b: byte, ghost before: seq<bool>, ghost bytes: seq<byte>) returns (r: uint32)
    requires bits <= 8 && before + Low(v, bits) == BitsOf(bytes)
    ensures before + Low(r, bits + 8) == BitsOf(bytes + [b])
  {
    r := ShiftIn(v, 8, b as int);
    ShiftInAppends(v, 8, b as int, bits);
    Regroup(before, Low(v, bits), Low(b as int, 8));
    assert (bytes + [b])[..|bytes|] == bytes;
  }

  /** `value = (value << 5) | index`. */
  method PushSymbol(v: uint32, bits: nat, s: Symbol, ghost before: seq<bool>, ghost symbols: seq<Symbol>) returns (r: uint32)
    requires bits <= 8 && before + Low(v, bits) == SymbolBits(symbols)
    ensures before + Low(r, bits + 5) == SymbolBits(symbols + [s])
  {
    r := ShiftIn(v, 5, s);
    ShiftInAppends(v, 5, s, bits);
    Regroup(before, Low(v, bits), Low(s, 5));
    assert (symbols + [s])[..|symbols|] == symbols;
  }

  /** `(value >>> (bits - 5)) & 31`. */
  method PopSymbol(v: uint32, bits: nat, ghost symbols: seq<Symbol>, ghost all: seq<bool>) returns (s: Symbol)
    requires bits >= 5 && SymbolBits(symbols) + Low(v, bits) == all
    ensures SymbolBits(symbols + [s]) + Low(v, bits - 5) == all
  {
    s := ShiftRight(v, bits - 5) % 32;
    ShiftRightSplits(v, bits - 5, 5);
    MaskKeepsLow(ShiftRight(v, bits - 5));
    Regroup(SymbolBits(symbols), Low(s, 5), Low(v, bits - 5));
    assert (symbols + [s])[..|symbols|] == symbols;
  }

  /** `(value >>> (bits - 8)) & 255`. */
  method PopByte(v: uint32, bits: nat, ghost bytes: seq<byte>, ghost all: seq<bool>) returns (b: byte)
    requires bits >= 8 && BitsOf(bytes) + Low(v, bits) == all
    ensures BitsOf(bytes + [b]) + Low(v, bits - 8) == all
  {
    b := (ShiftRight(v, bits - 8) % 256) as byte;
    ShiftRightSplits(v, bits - 8, 8);
    MaskKeepsLow(ShiftRight(v, bits - 8));
    Regroup(BitsOf(bytes), Low(b as int, 8), Low(v, bits - 8));
    assert (bytes + [b])[..|bytes|] == bytes;
  }

  /** `(value << (5 - bits)) & 31`: the last symbol, topped up with zeros. */
  method PopPadded(v: uint32, bits: nat, ghost symbols: seq<Symbol>, ghost bytes: seq<byte>) returns (s: Symbol)
    requires 1 <= bits <= 4 && SymbolBits(symbols) + Low(v, bits) == BitsOf(bytes)
    ensures Encodes(symbols + [s], bytes)
  {
    s := (v * Pow2(5 - bits)) % WORD % 32;
    PadBits(v, bits);
    LowOfZero(5 - bits);
    assert (symbols + [s])[..|symbols|] == symbols;
    assert SymbolBits(symbols + [s]) == BitsOf(bytes) + Low(0, 5 - bits);
  }

  lemma WholeSymbols(symbols: seq<Symbol>, bytes: seq<byte>)
    requires SymbolBits(symbols) + Low(0, 0) == BitsOf(bytes)
    ensures Encodes(symbols, bytes)
  {
    assert SymbolBits(symbols) == BitsOf(bytes) + [];
  }

  /** One symbol of the encoder's inner loop. */
  method EmitOne(v: uint32, pending: nat, text: string, ghost before: seq<Symbol>, ghost all: seq<bool>)
    returns (bits: nat, out: string, ghost symbols: seq<Symbol>)
    requires pending >= 5 && text == Text(before) && SymbolBits(before) + Low(v, pending) == all
    ensures bits == pending - 5 && out == Text(symbols) && SymbolBits(symbols) + Low(v, bits) == all
  {
    var s := PopSymbol(v, pending, before, all);
    TextSnoc(before, s);
    bits, out, symbols := pending - 5, text + [ALPHABET[s]], before + [s];
  }

  /** The inner loop of the encoder: emit symbols while five bits are pending. */
  method EmitPending(v: uint32, pending: nat, text: string, ghost before: seq<Symbol>, ghost all: seq<bool>)
    returns (bits: nat, out: string, ghost symbols: seq<Symbol>)
    requires text == Text(before) && SymbolBits(before) + Low(v, pending) == all
    ensures bits < 5 && out == Text(symbols) && SymbolBits(symbols) + Low(v, bits) == all
  {
    bits, out, symbols := pending, text, before;
    while bits >= 5
      invariant out == Text(symbols)
      invariant SymbolBits(symbols) + Low(v, bits) == all
      decreases bits
    {
      bits, out, symbols := EmitOne(v, bits, out, symbols, all);
    }
  }

  /** Emit the last symbol, if bits are pending. */
  method EmitLast(v: uint32, bits: nat, text: string, ghost before: seq<Symbol>, ghost bytes: seq<byte>)
    returns (out: string, ghost symbols: seq<Symbol>)
    requires bits < 5 && text == Text(before) && SymbolBits(before) + Low(v, bits) == BitsOf(bytes)
    ensures out == Text(symbols) && Encodes(symbols, bytes)
  {
    out, symbols := text, before;
    if bits > 0 {
      var s := PopPadded(v, bits, symbols, bytes);
      TextSnoc(symbols, s);
      out := out + [ALPHABET[s]];
      symbols := symbols + [s];
    } else {
      WholeSymbols(symbols, bytes);
    }
  }

  /** Emits the RFC 4648 encoding: the symbols that spell the bytes' bits, zero padded, and nothing else. */
  method Encode(bytes: seq<byte>) returns (out: string, ghost symbols: seq<Symbol>)
    ensures out == Text(symbols) && Encodes(symbols, bytes)
    ensures |out| == (8 * |bytes| + 4) / 5
  {
    var bits: nat, value: uint32 := 0, 0;
    out, symbols := "", [];
    for i := 0 to |bytes|
      invariant bits < 5 && out == Text(symbols)
      invariant SymbolBits(symbols) + Low(value, bits) == BitsOf(bytes[..i])
    {
      value := PushByte(value, bits, bytes[i], SymbolBits(symbols), bytes[..i]);
      TakeOneMore(bytes, i);
      bits, out, symbols := EmitPending(value, bits + 8, out, symbols, BitsOf(bytes[..i + 1]));
    }
    TakeAll(bytes);
    out, symbols := EmitLast(value, bits, out, symbols, bytes);
    EncodingLength(symbols, bytes);
  }

  /** One symbol of the decoder's loop: shift it in, and take a byte out when eight bits are pending. */
  method Absorb(v: uint32, pending: nat, s: Symbol, bytes: seq<byte>, ghost symbols: seq<Symbol>)
    returns (value: uint32, bits: nat, out: seq<byte>)
    requires pending < 8 && BitsOf(bytes) + Low(v, pending) == SymbolBits(symbols)
    ensures bits < 8 && BitsOf(out) + Low(value, bits) == SymbolBits(symbols + [s])
  {
    value := PushSymbol(v, pending, s, BitsOf(bytes), symbols);
    bits, out := pending + 5, bytes;
    if bits >= 8 {
      var b := PopByte(value, bits, out, SymbolBits(symbols + [s]));
      out := out + [b];
      bits := bits - 8;
    }
  }

  lemma NothingDecodes()
    ensures Decodes([], [])
  {
    assert SymbolBits([]) == BitsOf([]) + [];
  }

  ghost predicate FirstStranger(s: string, c: char) {
    exists i :: 0 <= i < |s| && s[i] == c && IndexOf(c).None? && forall j :: 0 <= j < i ==> IndexOf(s[j]).Some?
  }

  /** Decoding fails exactly when the cleaned text holds a character that is not in the alphabet. */
  lemma DecodableIffAlphabet(s: string)
    ensures (exists symbols :: s == Text(symbols)) <==> forall i :: 0 <= i < |s| ==> IndexOf(s[i]).Some?
  {
    if exists symbols :: s == Text(symbols) {
      var symbols :| s == Text(symbols);
      forall i | 0 <= i < |s| ensures IndexOf(s[i]).Some? {
        TextAt(symbols, i);
        IndexOfLetter(symbols[i]);
      }
    }
    if forall i :: 0 <= i < |s| ==> IndexOf(s[i]).Some? {
      var symbols := seq(|s|, i requires 0 <= i < |s| => IndexOf(s[i]).value);
      forall i | 0 <= i < |s| ensures Text(symbols)[i] == s[i] {
        TextAt(symbols, i);
      }
      assert s == Text(symbols);
    }
  }

  lemma StrangerAt(s: string, i: nat, symbols: seq<Symbol>)
    requires i < |s| && s[..i] == Text(symbols) && IndexOf(s[i]).None?
    ensures FirstStranger(s, s[i])
  {
    DecodableIffAlphabet(s[..i]);
    assert forall j :: 0 <= j < i ==> s[..i][j] == s[j];
  }

  /** Decodes the cleaned text, or names the first character of it that is not in the alphabet. */
  method Decode(encoded: string) returns (r: Result<seq<byte>, char>, ghost symbols: seq<Symbol>)
    ensures r.Ok? ==> Clean(encoded) == Text(symbols) && Decodes(symbols, r.value)
    ensures r.Err? ==> FirstStranger(Clean(encoded), r.error)
  {
    var cleaned := Clean(encoded);
    symbols := [];
    if cleaned == "" {
      NothingDecodes();
      return Ok([]), symbols;
    }
    var bits: nat, value: uint32 := 0, 0;
    var out: seq<byte> := [];
    for i := 0 to |cleaned|
      invariant bits < 8 && cleaned[..i] == Text(symbols)
      invariant BitsOf(out) + Low(value, bits) == SymbolBits(symbols)
    {
      var index := IndexOf(cleaned[i]);
      if index.None? {
        StrangerAt(cleaned, i, symbols);
        return Err(cleaned[i]), symbols;
      }
      TextSnoc(symbols, index.value);
      TakeOneMore(cleaned, i);
      value, bits, out := Absorb(value, bits, index.value, out, symbols);
      symbols := symbols + [index.value];
    }
    TakeAll(cleaned);
    r := Ok(out);
  }

  /** The promise of the pair, end to end: any text that cleans up to the encoding decodes to the bytes. */
  method DecodeWhatWasEncoded(bytes: seq<byte>, typed: string) returns (encoded: string, r: Result<seq<byte>, char>)
    ensures |encoded| == (8 * |bytes| + 4) / 5
    ensures Clean(encoded) == encoded
    ensures Clean(typed) == encoded ==> r == Ok(bytes)
  {
    ghost var symbols, read;
    encoded, symbols := Encode(bytes);
    TextIsClean(symbols);
    r, read := Decode(typed);
    if Clean(typed) == encoded {
      DecodableIffAlphabet(encoded);
      TextInjective(read, symbols);
      RoundTrip(symbols, bytes, r.value);
    }
  }

  lemma EncodingLength(symbols: seq<Symbol>, bytes: seq<byte>)
    requires Encodes(symbols, bytes)
    ensures |symbols| == (8 * |bytes| + 4) / 5
  {
    var pad :| SymbolBits(symbols) == BitsOf(bytes) + pad && |pad| < 5 && true !in pad;
    assert 5 * |symbols| == 8 * |bytes| + |pad|;
  }
}
