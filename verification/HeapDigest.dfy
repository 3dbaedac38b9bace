/** The digest of a heap file: the chunked feed of its bytes and the text the digest is printed as. */
module HeapDigest {
  import opened Common

  // ----- the feed -----

  /** A hash as a fold over bytes; its state and step stay abstract. */
  function Fold<S>(step: (S, byte) -> S, init: S, data: seq<byte>): S
    decreases |data|
  {
    if data == [] then init else step(Fold(step, init, data[..|data| - 1]), data[|data| - 1])
  }

  /** Feeding one byte is one step. */
  lemma FoldOne<S>(step: (S, byte) -> S, init: S, b: byte)
    ensures Fold(step, init, []) == init && Fold(step, init, [b]) == step(init, b)
  {
    assert [b][..0] == [];
  }

  /** Feeding in pieces is feeding the whole. */
  lemma {:induction false} FoldInPieces<S>(step: (S, byte) -> S, init: S, a: seq<byte>, b: seq<byte>)
    ensures Fold(step, init, a + b) == Fold(step, Fold(step, init, a), b)
    decreases |b|
  {
    if b == [] {
      assert a + b == a;
    } else {
      assert (a + b)[..|a + b| - 1] == a + b[..|b| - 1];
      FoldInPieces(step, init, a, b[..|b| - 1]);
    }
  }

  class Digest<S> {
    const step: (S, byte) -> S
    var state: S
    ghost var fed: seq<byte>

    constructor (step: (S, byte) -> S, init: S)
      ensures this.step == step && state == init && fed == []
    {
      this.step, state, fed := step, init, [];
    }

    method UpdateSync(data: seq<byte>)
      modifies this`state, this`fed
      ensures state == Fold(step, old(state), data)
      ensures fed == old(fed) + data
    {
      state, fed := Fold(step, state, data), fed + data;
    }
  }

  /** readSync: puts up to buf.Length bytes of the file, from the offset on, at the front of the
      buffer; fewer when the file ends or when `short` asks for fewer, and none only at the end. */
  method ReadSync(file: seq<byte>, buf: array<byte>, offset: nat, short: nat) returns (n: nat)
    requires offset <= |file| && buf.Length > 0
    modifies buf
    ensures n <= buf.Length && offset + n <= |file| && (n == 0 <==> offset == |file|)
    ensures buf[..n] == file[offset..offset + n]
    ensures buf[n..] == old(buf[n..])
  {
    n := if |file| - offset < buf.Length then |file| - offset else buf.Length;
    if 0 < short < n {
      n := short;
    }
    forall i | 0 <= i < n {
      buf[i] := file[offset + i];
    }
  }

  /** For any file length, buffer size and short reads: the loop ends, and the digest has been fed
      each byte of the file once, in order. What an earlier read left in the buffer is never fed. */
  method GetHeapDumpSHA256<S>(file: seq<byte>, step: (S, byte) -> S, init: S, bufSize: nat, short: nat -> nat)
    returns (state: S)
    requires bufSize > 0
    ensures state == Fold(step, init, file)
  {
    var md := new Digest(step, init);
    var buf := new byte[bufSize](_ => 0);
    var readSize, k := 0, 0;
    var readLen := ReadSync(file, buf, readSize, short(k));
    while readLen > 0
      invariant fresh(md) && fresh(buf) && md.step == step && buf.Length == bufSize
      invariant 0 <= readSize <= readSize + readLen <= |file| && readLen <= bufSize
      invariant buf[..readLen] == file[readSize..readSize + readLen]
      invariant readLen == 0 <==> readSize == |file|
      invariant md.fed == file[..readSize] && md.state == Fold(step, init, file[..readSize])
      decreases |file| - readSize
    {
      FoldInPieces(step, init, file[..readSize], buf[..readLen]);
      assert file[..readSize] + buf[..readLen] == file[..readSize + readLen];
      md.UpdateSync(buf[..readLen]);
      readSize := readSize + readLen;
      k := k + 1;
      readLen := ReadSync(file, buf, readSize, short(k));
    }
    assert file[..readSize] == file;
    state := md.state;
  }

  // ----- the text -----

  /** One digit of `toString(16)`. */
  function HexDigit(d: nat): char
    requires d < 16
  {
    if d < 10 then ('0' as int + d) as char else ('a' as int + d - 10) as char
  }

  /** `byte.toString(16)`: no leading zero. */
  function ToString16(b: byte): string {
    var n := b as nat;
    if n < 16 then [HexDigit(n)] else [HexDigit(n / 16), HexDigit(n % 16)]
  }

  /** `s.slice(-2)` */
  function LastTwo(s: string): string {
    if |s| <= 2 then s else s[|s| - 2..]
  }

  function UpperChar(c: char): char {
    if 'a' <= c <= 'z' then (c as int - 'a' as int + 'A' as int) as char else c
  }

  function ToUpperCase(s: string): string {
    seq(|s|, i requires 0 <= i < |s| => UpperChar(s[i]))
  }

  /** `map(...).join('')` */
  function Joined(digest: seq<byte>): string {
    if digest == [] then "" else LastTwo("0" + ToString16(digest[0])) + Joined(digest[1..])
  }

  function HexText(digest: seq<byte>): string {
    ToUpperCase(Joined(digest))
  }

  predicate IsHexDigit(c: char) {
    '0' <= c <= '9' || 'A' <= c <= 'F'
  }

  function DigitValue(c: char): nat
    requires IsHexDigit(c)
  {
    if c <= '9' then c as int - '0' as int else c as int - 'A' as int + 10
  }

  /** Reading the text back, two digits a byte. */
  function Decode(s: string): seq<byte>
    requires |s| % 2 == 0 && forall i | 0 <= i < |s| :: IsHexDigit(s[i])
  {
    if s == "" then []
    else [(16 * DigitValue(s[0]) + DigitValue(s[1])) as byte] + Decode(s[2..])
  }

  lemma OneByte(b: byte)
    ensures var s := ToUpperCase(LastTwo("0" + ToString16(b)));
            && |s| == 2 && IsHexDigit(s[0]) && IsHexDigit(s[1])
            && 16 * DigitValue(s[0]) + DigitValue(s[1]) == b as nat
  {
    var n := b as nat;
    assert n == 16 * (n / 16) + n % 16;
  }

  lemma UpperOfPieces(s: string, t: string)
    ensures ToUpperCase(s + t) == ToUpperCase(s) + ToUpperCase(t)
  {}

  /** The text has two digits a byte, only 0-9 and A-F, and reads back as the digest. */
  lemma {:induction false} HexTextRoundTrip(digest: seq<byte>)
    ensures |HexText(digest)| == 2 * |digest|
    ensures forall i | 0 <= i < |HexText(digest)| :: IsHexDigit(HexText(digest)[i])
    ensures Decode(HexText(digest)) == digest
    decreases |digest|
  {
    if digest != [] {
      var piece := LastTwo("0" + ToString16(digest[0]));
      OneByte(digest[0]);
      UpperOfPieces(piece, Joined(digest[1..]));
      HexTextRoundTrip(digest[1..]);
      var s := HexText(digest);
      assert s == ToUpperCase(piece) + HexText(digest[1..]);
      assert s[2..] == HexText(digest[1..]);
      assert s[0] == ToUpperCase(piece)[0] && s[1] == ToUpperCase(piece)[1];
      forall i | 0 <= i < |s| ensures IsHexDigit(s[i]) {
        if i >= 2 {
          assert s[i] == s[2..][i - 2];
        }
      }
      assert digest == [digest[0]] + digest[1..];
    }
  }
}
