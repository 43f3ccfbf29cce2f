/**
 `splitRelayUrlForRegistrar` and `packRelayUrlForRegistrar` of `Utils.ts`, for ASCII URLs: a URL is stored on chain
 as a few words of 32 bytes, each written as "0x" and 64 hexadecimal digits.
 */
module RelayUrlCodec {
  import opened Sequences
  import opened Wrappers

  datatype SplitError = UrlTooLong

  type AsciiChar = c: char | c as int < 128 witness 'a'

  type Ascii = seq<AsciiChar>

  /** The line terminators that `.` does not match; the others of JavaScript are not ASCII. */
  predicate IsTerminator(c: char) {
    c == '\n' || c == '\r'
  }

  predicate IsOneLine(s: Ascii) {
    forall i :: 0 <= i < |s| ==> !IsTerminator(s[i])
  }

  // ---------- Hexadecimal ----------

  function HexDigit(n: int): char
    requires 0 <= n < 16
  {
    "0123456789abcdef"[n]
  }

  function DigitValue(c: char): int {
    if '0' <= c <= '9' then c as int - '0' as int
    else if 'a' <= c <= 'f' then c as int - 'a' as int + 10
    else -1
  }

  function HexByte(c: AsciiChar): string
  {
    [HexDigit(c as int / 16), HexDigit(c as int % 16)]
  }

  /** `Buffer.from(s).toString('hex')` */
  function Hex(s: Ascii): string
  {
    if s == [] then [] else HexByte(s[0]) + Hex(s[1..])
  }

  /** `Buffer.from(h, 'hex').toString()`, which stops at the first pair that is not a byte of two digits. */
  function Unhex(h: string): string {
    if |h| < 2 || DigitValue(h[0]) < 0 || DigitValue(h[1]) < 0 || DigitValue(h[0]) >= 8 then []
    else [(DigitValue(h[0]) * 16 + DigitValue(h[1])) as char] + Unhex(h[2..])
  }

  function Repeat<C>(c: C, n: nat): seq<C> {
    seq(n, _ => c)
  }

  /** `s.padEnd(length, c)` */
  function PadEnd<C>(s: seq<C>, length: nat, c: C): seq<C> {
    if |s| >= length then s else s + Repeat(c, length - |s|)
  }

  // ---------- The codec ----------

  /** The length of the longest match of `.{1,max}` at the start of the string. */
  function RunLength(s: Ascii, max: nat): (n: nat)
    ensures n <= |s| && n <= max
    ensures forall i :: 0 <= i < n ==> !IsTerminator(s[i])
    ensures n < |s| && n < max ==> IsTerminator(s[n])
  {
    if s == [] || max == 0 || IsTerminator(s[0]) then 0 else 1 + RunLength(s[1..], max - 1)
  }

  /** All matches of `.{1,32}`, from left to right. */
  function Chunks(s: Ascii): seq<Ascii> {
    if s == [] then []
    else if IsTerminator(s[0]) then Chunks(s[1..])
    else
      var n := RunLength(s, 32);
      [s[..n]] + Chunks(s[n..])
  }

  function ChunkAt(chunks: seq<Ascii>, i: nat): Ascii {
    if i < |chunks| then chunks[i] else ""
  }

  function Part(chunk: Ascii): string
  {
    "0x" + PadEnd(Hex(chunk), 64, '0')
  }

  /** `s.replace(/0x/g, '')` */
  function WithoutPrefixes(s: string): string {
    if |s| < 2 then s
    else if s[0] == '0' && s[1] == 'x' then WithoutPrefixes(s[2..])
    else [s[0]] + WithoutPrefixes(s[1..])
  }

  /** `s.replace(/(00)+$/g, '')`: the longest tail of pairs of zeros goes. */
  function StripZeroPairs(h: string): string {
    var n := |h|;
    if n >= 2 && h[n - 2] == '0' && h[n - 1] == '0' then StripZeroPairs(h[..n - 2]) else h
  }

  function Join(parts: seq<string>): string {
    if parts == [] then "" else parts[0] + Join(parts[1..])
  }

  function Pack(parts: seq<string>): string {
    Unhex(StripZeroPairs(WithoutPrefixes(Join(parts))))
  }

  function PartsFrom(chunks: seq<Ascii>, i: nat, count: nat): seq<string>
    decreases count - i
  {
    if i >= count then [] else [Part(ChunkAt(chunks, i))] + PartsFrom(chunks, i + 1, count)
  }

  lemma {:induction false} ChunksAreShortLines(s: Ascii)
    ensures forall c :: c in Chunks(s) ==> 0 < |c| <= 32 && IsOneLine(c)
  {
    if s != [] {
      if IsTerminator(s[0]) {
        ChunksAreShortLines(s[1..]);
      } else {
        var n := RunLength(s, 32);
        ChunksAreShortLines(s[n..]);
        assert IsOneLine(s[..n]);
      }
    }
  }

  function Split(url: Ascii, partsCount: nat): Result<seq<string>, SplitError>
  {
    if |url| > 32 * partsCount then Err(UrlTooLong)
    else Ok(PartsFrom(Chunks(url), 0, partsCount))
  }

  // ---------- What packing the parts gives ----------

  const NUL: AsciiChar := 0 as char

  /** The bytes stored on chain: every chunk filled up with NULs to 32 bytes. */
  function Stored(chunks: seq<Ascii>, i: nat, count: nat): Ascii
    decreases count - i
  {
    if i >= count then "" else PadEnd(ChunkAt(chunks, i), 32, NUL) + Stored(chunks, i + 1, count)
  }

  function TrimNuls(s: Ascii): Ascii {
    if s != [] && s[|s| - 1] == NUL then TrimNuls(s[..|s| - 1]) else s
  }

  lemma {:induction false} HexConcat(a: Ascii, b: Ascii)
    ensures Hex(a + b) == Hex(a) + Hex(b)
  {
    if a == [] {
      AppendNothing(b);
      AppendNothing(Hex(b));
    } else {
      HexConcat(a[1..], b);
      TailOfConcat(a, b);
      Regroup(HexByte(a[0]), Hex(a[1..]), Hex(b));
    }
  }

  lemma TailOfConcat(a: Ascii, b: Ascii)
    requires a != []
    ensures (a + b)[1..] == a[1..] + b && (a + b)[0] == a[0]
  {
  }

  predicate AllDigits(h: string) {
    forall i :: 0 <= i < |h| ==> DigitValue(h[i]) >= 0
  }

  lemma {:induction false} HexLength(s: Ascii)
    ensures |Hex(s)| == 2 * |s|
  {
    if s != [] {
      HexLength(s[1..]);
    }
  }

  lemma {:induction false} HexIsDigits(s: Ascii)
    ensures AllDigits(Hex(s))
  {
    if s != [] {
      HexIsDigits(s[1..]);
      DigitRoundTrip(s[0]);
      assert AllDigits(HexByte(s[0]));
    }
  }

  lemma {:induction false} HexOfNuls(n: nat)
    ensures Hex(Repeat(NUL, n)) == Repeat('0', 2 * n)
  {
    if n > 0 {
      HexOfNuls(n - 1);
      assert Repeat(NUL, n)[1..] == Repeat(NUL, n - 1);
      assert HexByte(NUL) == "00";
      TwoZerosMore(n - 1);
    }
  }

  lemma TwoZerosMore(n: nat)
    ensures "00" + Repeat('0', 2 * n) == Repeat('0', 2 * (n + 1))
  {
    assert "00" == ['0'] + ['0'];
  }

  /** Padding the digits of a chunk is padding its bytes. */
  lemma PaddedHex(chunk: Ascii, size: nat)
    requires |chunk| <= size
    ensures PadEnd(Hex(chunk), 2 * size, '0') == Hex(PadEnd(chunk, size, NUL))
  {
    HexLength(chunk);
    HexThenNuls(chunk, size - |chunk|);
    PadIsConcat(chunk, size, NUL);
    PadDigits(Hex(chunk), |chunk|, size);
  }

  lemma PadDigits(h: string, half: nat, size: nat)
    requires |h| == 2 * half && half <= size
    ensures PadEnd(h, 2 * size, '0') == h + Repeat('0', 2 * (size - half))
  {
  }

  lemma HexThenNuls(s: Ascii, n: nat)
    ensures Hex(s + Repeat(NUL, n)) == Hex(s) + Repeat('0', 2 * n)
  {
    HexOfNuls(n);
    HexConcat(s, Repeat(NUL, n));
  }

  lemma PadIsConcat<C>(s: seq<C>, length: nat, c: C)
    requires |s| <= length
    ensures PadEnd(s, length, c) == s + Repeat(c, length - |s|) && |PadEnd(s, length, c)| == length
  {
  }

  predicate StartsWithPrefix(s: string) {
    |s| >= 2 && s[0] == '0' && s[1] == 'x'
  }

  lemma {:induction false} NoPrefixInDigits(digits: string, rest: string)
    requires AllDigits(digits) && (rest == [] || StartsWithPrefix(rest))
    ensures WithoutPrefixes(digits + rest) == digits + WithoutPrefixes(rest)
  {
    if digits == [] {
      assert digits + rest == rest;
    } else {
      NoPrefixInDigits(digits[1..], rest);
      DigitIsNoPrefix(digits, rest);
      SplitHead(digits, WithoutPrefixes(rest));
    }
  }

  lemma SplitHead(a: string, b: string)
    requires a != []
    ensures a + b == [a[0]] + (a[1..] + b)
  {
  }

  lemma DigitIsNoPrefix(digits: string, rest: string)
    requires AllDigits(digits) && digits != [] && (rest == [] || StartsWithPrefix(rest))
    ensures WithoutPrefixes(digits + rest) == [digits[0]] + WithoutPrefixes(digits[1..] + rest)
  {
    var s := digits + rest;
    assert s[1..] == digits[1..] + rest;
    if |s| >= 2 {
      var second := if |digits| >= 2 then digits[1] else rest[0];
      assert s[1] == second && second != 'x';
    } else {
      assert s == [digits[0]] + s[1..];
    }
  }

  lemma PrefixGoes(digits: string, rest: string)
    ensures WithoutPrefixes("0x" + digits + rest) == WithoutPrefixes(digits + rest)
  {
    var joined := "0x" + digits + rest;
    assert joined[0] == '0' && joined[1] == 'x' && joined[2..] == digits + rest;
  }

  /** Joined with what follows, a part gives its padded bytes. */
  lemma DigitsOfPart(chunk: Ascii, rest: string, stored: Ascii)
    requires |chunk| <= 32 && (rest == [] || StartsWithPrefix(rest)) && WithoutPrefixes(rest) == Hex(stored)
    ensures StartsWithPrefix(Part(chunk) + rest)
    ensures WithoutPrefixes(Part(chunk) + rest) == Hex(PadEnd(chunk, 32, NUL) + stored)
  {
    var padded := PadEnd(chunk, 32, NUL);
    PaddedHex(chunk, 32);
    HexIsDigits(padded);
    NoPrefixInDigits(Hex(padded), rest);
    PrefixGoes(Hex(padded), rest);
    HexConcat(padded, stored);
  }

  lemma {:induction false} DigitsOfParts(chunks: seq<Ascii>, i: nat, count: nat)
    requires forall c :: c in chunks ==> |c| <= 32
    ensures var joined := Join(PartsFrom(chunks, i, count));
      && WithoutPrefixes(joined) == Hex(Stored(chunks, i, count))
      && (joined == [] || StartsWithPrefix(joined))
    decreases count - i
  {
    if i < count {
      DigitsOfParts(chunks, i + 1, count);
      DigitsOfPart(ChunkAt(chunks, i), Join(PartsFrom(chunks, i + 1, count)), Stored(chunks, i + 1, count));
      assert PartsFrom(chunks, i, count)[1..] == PartsFrom(chunks, i + 1, count);
    }
  }

  /** Stripping pairs of zeros from the digits strips whole NUL bytes: no byte is ever cut in half. */
  lemma {:induction false} StrippingStripsWholeBytes(s: Ascii)
    ensures StripZeroPairs(Hex(s)) == Hex(TrimNuls(s))
  {
    if s != [] {
      var n := |s| - 1;
      HexAppend(s[..n], s[n]);
      assert s == s[..n] + [s[n]];
      StripOneByte(Hex(s[..n]), s[n]);
      if s[n] == NUL {
        StrippingStripsWholeBytes(s[..n]);
      }
    }
  }

  /** The last byte goes if it is NUL, whose digits are the pair of zeros. */
  lemma StripOneByte(h: string, c: AsciiChar)
    ensures StripZeroPairs(h + HexByte(c)) == if c == NUL then StripZeroPairs(h) else h + HexByte(c)
  {
    ZerosAreNul(c);
    assert (h + HexByte(c))[..|h|] == h;
  }

  lemma ZerosAreNul(c: AsciiChar)
    ensures HexByte(c)[0] == HexByte(c)[1] == '0' <==> c == NUL
  {
  }

  lemma HexOfOne(c: AsciiChar)
    ensures Hex([c]) == HexByte(c)
  {
    assert [c][1..] == [];
    AppendNothing(HexByte(c));
  }

  lemma HexAppend(s: Ascii, c: AsciiChar)
    ensures Hex(s + [c]) == Hex(s) + HexByte(c)
  {
    HexConcat(s, [c]);
    HexOfOne(c);
  }

  lemma {:induction false} UnhexHex(s: Ascii)
    ensures Unhex(Hex(s)) == s
  {
    if s != [] {
      UnhexHex(s[1..]);
      UnhexByte(s[0], Hex(s[1..]));
      assert s == [s[0]] + s[1..];
    }
  }

  lemma UnhexByte(c: AsciiChar, rest: string)
    ensures Unhex(HexByte(c) + rest) == [c] + Unhex(rest)
  {
    DigitRoundTrip(c);
    assert (HexByte(c) + rest)[2..] == rest;
  }

  lemma DigitRoundTrip(c: AsciiChar)
    ensures DigitValue(HexDigit(c as int / 16)) == c as int / 16
    ensures DigitValue(HexDigit(c as int % 16)) == c as int % 16
  {
  }

  lemma PackGivesStoredBytes(url: Ascii, partsCount: nat)
    requires |url| <= 32 * partsCount
    ensures Split(url, partsCount).Ok?
    ensures Pack(Split(url, partsCount).value) == TrimNuls(Stored(Chunks(url), 0, partsCount))
  {
    ChunksAreShortLines(url);
    DigitsOfParts(Chunks(url), 0, partsCount);
    var stored := Stored(Chunks(url), 0, partsCount);
    StrippingStripsWholeBytes(stored);
    UnhexHex(TrimNuls(stored));
  }

  // ---------- The round trip ----------

  lemma {:induction false} NothingStoredIsNuls(chunks: seq<Ascii>, i: nat, count: nat)
    requires |chunks| <= i <= count
    ensures Stored(chunks, i, count) == Repeat(NUL, 32 * (count - i))
    decreases count - i
  {
    if i < count {
      NothingStoredIsNuls(chunks, i + 1, count);
      assert PadEnd("", 32, NUL) == Repeat(NUL, 32);
    }
  }

  lemma {:induction false} RunOfOneLine(s: Ascii, max: nat)
    requires IsOneLine(s)
    ensures RunLength(s, max) == if |s| < max then |s| else max
  {
    if s != [] && max > 0 {
      RunOfOneLine(s[1..], max - 1);
    }
  }

  lemma NextChunks(url: Ascii, chunks: seq<Ascii>, i: nat, n: nat)
    requires url != [] && !IsTerminator(url[0]) && n == RunLength(url, 32)
    requires i <= |chunks| && chunks[i..] == Chunks(url)
    ensures i < |chunks| && ChunkAt(chunks, i) == url[..n] && chunks[i + 1..] == Chunks(url[n..])
  {
    assert Chunks(url) == [url[..n]] + Chunks(url[n..]);
    assert chunks[i + 1..] == chunks[i..][1..];
  }

  /** Without line terminators, the stored bytes are the URL and then NULs. */
  lemma {:induction false} StoredIsPaddedUrl(url: Ascii, chunks: seq<Ascii>, i: nat, count: nat)
    requires IsOneLine(url) && i <= count && |url| <= 32 * (count - i)
    requires i <= |chunks| && chunks[i..] == Chunks(url)
    ensures Stored(chunks, i, count) == url + Repeat(NUL, 32 * (count - i) - |url|)
    decreases count - i
  {
    if url == [] {
      NothingStoredIsNuls(chunks, i, count);
    } else {
      RunOfOneLine(url, 32);
      var n := RunLength(url, 32);
      NextChunks(url, chunks, i, n);
      StoredIsPaddedUrl(url[n..], chunks, i + 1, count);
      PadsJoin(url, n, count - i);
    }
  }

  lemma PadsJoin(url: Ascii, n: nat, words: nat)
    requires 0 < |url| <= 32 * words && n == if |url| < 32 then |url| else 32
    ensures PadEnd(url[..n], 32, NUL) + (url[n..] + Repeat(NUL, 32 * (words - 1) - |url[n..]|))
         == url + Repeat(NUL, 32 * words - |url|)
  {
  }

  lemma {:induction false} TrimOfPadded(s: Ascii, n: nat)
    ensures TrimNuls(s + Repeat(NUL, n)) == TrimNuls(s)
  {
    if n == 0 {
      assert s + Repeat(NUL, 0) == s;
    } else {
      var padded := s + Repeat(NUL, n);
      assert padded[..|padded| - 1] == s + Repeat(NUL, n - 1);
      TrimOfPadded(s, n - 1);
    }
  }

  predicate EndsInNul(s: Ascii) {
    s != [] && s[|s| - 1] == NUL
  }

  lemma {:induction false} TrimmedDoesNotEndInNul(s: Ascii)
    ensures !EndsInNul(TrimNuls(s)) && (!EndsInNul(s) ==> TrimNuls(s) == s)
    ensures IsOneLine(s) ==> IsOneLine(TrimNuls(s))
  {
    if EndsInNul(s) {
      TrimmedDoesNotEndInNul(s[..|s| - 1]);
    }
  }

  lemma {:induction false} StoredIsOneLine(chunks: seq<Ascii>, i: nat, count: nat)
    requires forall c :: c in chunks ==> IsOneLine(c)
    ensures IsOneLine(Stored(chunks, i, count))
    decreases count - i
  {
    if i < count {
      StoredIsOneLine(chunks, i + 1, count);
      assert IsOneLine(ChunkAt(chunks, i));
      assert IsOneLine(PadEnd(ChunkAt(chunks, i), 32, NUL));
    }
  }

  /**
   The round trip, for every ASCII URL that fits: packing what was split gives the URL back if and only if it has
   no line terminator and does not end in a NUL.
   */
  lemma RoundTrip(url: Ascii, partsCount: nat)
    requires |url| <= 32 * partsCount
    ensures Split(url, partsCount).Ok?
    ensures Pack(Split(url, partsCount).value) == url <==> IsOneLine(url) && !EndsInNul(url)
  {
    PackGivesStoredBytes(url, partsCount);
    PackedIsOneLine(url, partsCount);
    if IsOneLine(url) {
      PackedLineIsTrimmed(url, partsCount);
      TrimmedDoesNotEndInNul(url);
    }
  }

  lemma PackedIsOneLine(url: Ascii, partsCount: nat)
    ensures var packed := TrimNuls(Stored(Chunks(url), 0, partsCount)); IsOneLine(packed) && !EndsInNul(packed)
  {
    ChunksAreShortLines(url);
    StoredIsOneLine(Chunks(url), 0, partsCount);
    TrimmedDoesNotEndInNul(Stored(Chunks(url), 0, partsCount));
  }

  lemma PackedLineIsTrimmed(url: Ascii, partsCount: nat)
    requires IsOneLine(url) && |url| <= 32 * partsCount
    ensures TrimNuls(Stored(Chunks(url), 0, partsCount)) == TrimNuls(url)
  {
    StoredIsPaddedUrl(url, Chunks(url), 0, partsCount);
    TrimOfPadded(url, 32 * partsCount - |url|);
  }

  /** Whatever the URL, there are as many parts as asked for, and each is a word of exactly 32 bytes. */
  lemma {:induction false} PartsAreWords(chunks: seq<Ascii>, i: nat, count: nat)
    requires forall c :: c in chunks ==> |c| <= 32
    ensures |PartsFrom(chunks, i, count)| == if i < count then count - i else 0
    ensures forall p :: p in PartsFrom(chunks, i, count) ==> IsWord(p)
    decreases count - i
  {
    if i < count {
      PartsAreWords(chunks, i + 1, count);
      var chunk := ChunkAt(chunks, i);
      PaddedHex(chunk, 32);
      HexIsDigits(PadEnd(chunk, 32, NUL));
      HexLength(PadEnd(chunk, 32, NUL));
      PadIsConcat(chunk, 32, NUL);
      assert IsWord(Part(chunk));
    }
  }

  predicate IsWord(part: string) {
    && |part| == 66 && part[0] == '0' && part[1] == 'x'
    && forall i :: 2 <= i < 66 ==> DigitValue(part[i]) >= 0
  }

  // ---------- What the words hold ----------

  lemma {:induction false} HexAt(s: Ascii, k: nat)
    requires k < |s|
    ensures |Hex(s)| == 2 * |s| && Hex(s)[2 * k] == HexByte(s[k])[0] && Hex(s)[2 * k + 1] == HexByte(s[k])[1]
  {
    HexLength(s);
    if k > 0 {
      HexAt(s[1..], k - 1);
    }
  }

  /** A word in hexadecimal, byte `k` of which is `byte`: two lower-case digits. */
  predicate HoldsByte(word: string, k: nat, byte: nat)
    requires k < 32 && byte < 128
  {
    && |word| == 66 && word[0] == '0' && word[1] == 'x'
    && word[2 * k + 2] == "0123456789abcdef"[byte / 16] && word[2 * k + 3] == "0123456789abcdef"[byte % 16]
  }

  lemma WordOfChunk(chunk: Ascii, k: nat)
    requires |chunk| <= 32 && k < 32
    ensures HoldsByte(Part(chunk), k, if k < |chunk| then chunk[k] as int else 0)
  {
    HexLength(chunk);
    if k < |chunk| {
      HexAt(chunk, k);
    }
  }

  /** The 32 characters of the URL from position `32 * i` on, or what there is of them. */
  function LineChunk(url: Ascii, i: nat): Ascii {
    if |url| <= 32 * i then "" else if |url| < 32 * i + 32 then url[32 * i..] else url[32 * i..32 * i + 32]
  }

  lemma FirstLineChunk(url: Ascii, n: nat)
    requires n == if |url| < 32 then |url| else 32
    ensures url[..n] == LineChunk(url, 0)
  {
  }

  lemma LaterLineChunk(url: Ascii, n: nat, i: nat)
    requires i > 0 && n == if |url| < 32 then |url| else 32
    ensures LineChunk(url[n..], i - 1) == LineChunk(url, i)
  {
  }

  lemma {:induction false} ChunkOfOneLine(url: Ascii, i: nat)
    requires IsOneLine(url)
    ensures ChunkAt(Chunks(url), i) == LineChunk(url, i)
    decreases i
  {
    if url != [] {
      RunOfOneLine(url, 32);
      var n := RunLength(url, 32);
      FirstChunk(url[..n], Chunks(url[n..]), i);
      if i == 0 {
        FirstLineChunk(url, n);
      } else {
        ChunkOfOneLine(url[n..], i - 1);
        LaterLineChunk(url, n, i);
      }
    }
  }

  lemma FirstChunk(first: Ascii, rest: seq<Ascii>, i: nat)
    ensures ChunkAt([first] + rest, i) == if i == 0 then first else ChunkAt(rest, i - 1)
  {
  }

  lemma {:induction false} PartAt(chunks: seq<Ascii>, i: nat, count: nat, j: nat)
    requires i <= j < count
    ensures |PartsFrom(chunks, i, count)| == count - i
    ensures PartsFrom(chunks, i, count)[j - i] == Part(ChunkAt(chunks, j))
    decreases count - i
  {
    if i + 1 < count {
      PartAt(chunks, i + 1, count, if i < j then j else i + 1);
    }
    SecondOf(Part(ChunkAt(chunks, i)), PartsFrom(chunks, i + 1, count), j - i);
  }

  lemma SecondOf(first: string, rest: seq<string>, j: nat)
    requires j <= |rest|
    ensures ([first] + rest)[j] == if j == 0 then first else rest[j - 1]
  {
  }

  lemma SplitIsParts(url: Ascii, partsCount: nat)
    requires |url| <= 32 * partsCount
    ensures Split(url, partsCount) == Ok(PartsFrom(Chunks(url), 0, partsCount))
  {
  }

  lemma WordAt(url: Ascii, partsCount: nat, i: nat)
    requires IsOneLine(url) && |url| <= 32 * partsCount && i < partsCount
    ensures Split(url, partsCount).Ok? && |Split(url, partsCount).value| == partsCount
    ensures Split(url, partsCount).value[i] == Part(LineChunk(url, i))
  {
    SplitIsParts(url, partsCount);
    var chunks, chunk := Chunks(url), LineChunk(url, i);
    assert ChunkAt(chunks, i) == chunk by {
      ChunkOfOneLine(url, i);
    }
    PartAt(chunks, 0, partsCount, i);
  }

  lemma ByteOfLineChunk(url: Ascii, i: nat, k: nat)
    requires k < 32
    ensures |LineChunk(url, i)| <= 32
    ensures k < |LineChunk(url, i)| <==> 32 * i + k < |url|
    ensures 32 * i + k < |url| ==> LineChunk(url, i)[k] == url[32 * i + k]
  {
  }

  /** Byte `k` of word `i` is byte `32 * i + k` of the URL, or zero after its end. */
  lemma SplitExactly(url: Ascii, partsCount: nat, i: nat, k: nat)
    requires IsOneLine(url) && |url| <= 32 * partsCount && i < partsCount && k < 32
    ensures Split(url, partsCount).Ok? && |Split(url, partsCount).value| == partsCount
    ensures HoldsByte(Split(url, partsCount).value[i], k,
                      if 32 * i + k < |url| then url[32 * i + k] as int else 0)
  {
    WordAt(url, partsCount, i);
    ByteOfLineChunk(url, i, k);
    WordOfChunk(LineChunk(url, i), k);
  }

  // ---------- The code ----------

  method SplitRelayUrlForRegistrar(url: Ascii, partsCount: nat) returns (result: Result<seq<string>, SplitError>)
    ensures result == Split(url, partsCount)
    ensures result.Err? <==> |url| > 32 * partsCount
    ensures result.Ok? ==> |result.value| == partsCount && forall p :: p in result.value ==> IsWord(p)
  {
    var maxLength := 32 * partsCount;
    if |url| > maxLength {
      return Err(UrlTooLong);
    }
    ChunksAreShortLines(url);
    var parts := Chunks(url);
    var list: seq<string> := [];
    for i := 0 to partsCount
      invariant list + PartsFrom(parts, i, partsCount) == PartsFrom(parts, 0, partsCount)
    {
      var part := Part(ChunkAt(parts, i));
      Regroup(list, [part], PartsFrom(parts, i + 1, partsCount));
      list := list + [part];
    }
    AppendNothing(list);
    PartsAreWords(parts, 0, partsCount);
    return Ok(list);
  }
}
