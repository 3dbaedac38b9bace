/** The trailer AppendMetaData puts behind a raw heap: the metadata, then the two file sizes as
    32-bit words in little-endian order. */
module RawHeapTrailer {
  import opened Common

  const BUFF_SIZE: nat := 1024

  /** The bytes of a uint32_t in memory. */
  function Bytes(n: nat): seq<byte>
    requires n < WORD
  {
    [(n % 256) as byte, (n / 0x100 % 256) as byte, (n / 0x1_0000 % 256) as byte, (n / 0x100_0000 % 256) as byte]
  }

  function Number(b: seq<byte>): nat
    requires |b| == 4
  {
    b[0] as nat + 0x100 * b[1] as nat + 0x1_0000 * b[2] as nat + 0x100_0000 * b[3] as nat
  }

  lemma NumberOfBytes(n: nat)
    requires n < WORD
    ensures Number(Bytes(n)) == n
    ensures Bytes(n)[0] as nat == n % 0x100 && Bytes(n)[3] as nat == n / 0x100_0000
  {
    assert n == n % 256 + 256 * (n / 256);
    assert n / 256 == n / 256 % 256 + 256 * (n / 256 / 256);
    assert n / 256 / 256 == n / 256 / 256 % 256 + 256 * (n / 256 / 256 / 256);
    assert n / 256 / 256 == n / 0x1_0000 && n / 256 / 256 / 256 == n / 0x100_0000;
  }

  function Trailer(heapSize: nat, metaSize: nat): seq<byte> {
    Bytes(ToUint32(heapSize)) + Bytes(ToUint32(metaSize))
  }

  /** Taking a file apart by its trailer: the heap and the metadata, if the sizes fit. */
  function Split(file: seq<byte>): Option<(seq<byte>, seq<byte>)> {
    if |file| < 8 then None
    else
      var n := |file| - 8;
      var heapSize, metaSize := Number(file[n..n + 4]), Number(file[n + 4..]);
      if heapSize + metaSize == n then Some((file[..heapSize], file[heapSize..n])) else None
  }

  lemma SplitOfTrailer(body: seq<byte>, heapSize: nat, metaSize: nat)
    ensures var h, m := ToUint32(heapSize), ToUint32(metaSize);
            Split(body + Trailer(heapSize, metaSize)) ==
            if h + m == |body| then Some((body[..h], body[h..])) else None
  {
    var h, m := ToUint32(heapSize), ToUint32(metaSize);
    var file, n := body + Trailer(heapSize, metaSize), |body|;
    assert file[n..n + 4] == Bytes(h) && file[n + 4..] == Bytes(m);
    NumberOfBytes(h);
    NumberOfBytes(m);
    if h + m == n {
      assert file[..h] == body[..h] && file[h..n] == body[h..];
    }
  }

  /** The trailer gives both parts back exactly when each is shorter than 2^32 bytes and the metadata
      was copied to its end. */
  lemma TrailerRoundTrip(heap: seq<byte>, metaData: seq<byte>, copied: nat)
    requires copied <= |metaData|
    ensures Split(heap + metaData[..copied] + Trailer(|heap|, |metaData|)) == Some((heap, metaData))
            <==> |heap| < WORD && |metaData| < WORD && copied == |metaData|
  {
    hide Split, Trailer;
    var h, m := ToUint32(|heap|), ToUint32(|metaData|);
    SplitOfTrailer(heap + metaData[..copied], |heap|, |metaData|);
    if h + m == |heap| + copied {
      PartsAre(heap, metaData, copied, h);
    }
  }

  lemma PartsAre(heap: seq<byte>, metaData: seq<byte>, copied: nat, h: nat)
    requires copied <= |metaData| && h <= |heap| + copied
    ensures var body := heap + metaData[..copied];
            body[..h] == heap && body[h..] == metaData <==> h == |heap| && copied == |metaData|
  {
    var body := heap + metaData[..copied];
    assert |body[..h]| == h && |body[h..]| == |heap| + copied - h;
    if h == |heap| && copied == |metaData| {
      assert body[..h] == heap && body[h..] == metaData;
    }
  }

  // ----- the code -----

  /** A file open for appending; the n-th write succeeds or comes short. */
  class AppendFile {
    var bytes: seq<byte>
    var writes: nat
    const fails: nat -> bool

    constructor (bytes: seq<byte>, fails: nat -> bool)
      ensures this.bytes == bytes && writes == 0 && this.fails == fails
    {
      this.bytes, writes, this.fails := bytes, 0, fails;
    }

    method Write(data: seq<byte>) returns (ok: bool)
      modifies this`bytes, this`writes
      ensures ok <==> !fails(old(writes))
      ensures ok ==> bytes == old(bytes) + data
      ensures writes == old(writes) + 1
    {
      ok := !fails(writes);
      writes := writes + 1;
      if ok {
        bytes := bytes + data;
      }
    }
  }

  /** What the k-th fread of a buffer reads from position `at` of a file: as much as fits, unless a
      shorter count or an error (0) is met. */
  function ReadSize(file: seq<byte>, at: nat, limit: nat -> nat, k: nat): (n: nat)
    requires at <= |file|
    ensures n <= |file| - at && n <= BUFF_SIZE
  {
    var most := if |file| - at < BUFF_SIZE then |file| - at else BUFF_SIZE;
    if limit(k) < most then limit(k) else most
  }

  /** What the loop copies: it reads on from position `at`, the k-th time, until a read yields nothing. */
  function Copied(file: seq<byte>, limit: nat -> nat, at: nat, k: nat): (n: nat)
    requires at <= |file|
    ensures at <= n <= |file|
    decreases |file| - at
  {
    var n := ReadSize(file, at, limit, k);
    if n == 0 then at else Copied(file, limit, at + n, k + 1)
  }

  lemma CopiedStep(file: seq<byte>, limit: nat -> nat, at: nat, k: nat)
    requires at <= |file|
    ensures Copied(file, limit, at, k) ==
            if ReadSize(file, at, limit, k) == 0 then at
            else Copied(file, limit, at + ReadSize(file, at, limit, k), k + 1)
  {}

  /** Where the k-th read stands. */
  function Position(file: seq<byte>, limit: nat -> nat, k: nat): (at: nat)
    ensures at <= |file|
  {
    if k == 0 then 0
    else Position(file, limit, k - 1) + ReadSize(file, Position(file, limit, k - 1), limit, k - 1)
  }

  /** No read before the end of the file yields nothing. */
  ghost predicate EachReadYields(file: seq<byte>, limit: nat -> nat) {
    forall k: nat :: Position(file, limit, k) < |file| ==> limit(k) > 0
  }

  ghost predicate YieldFrom(file: seq<byte>, limit: nat -> nat, k: nat) {
    forall j: nat | j >= k :: Position(file, limit, j) < |file| ==> limit(j) > 0
  }

  lemma YieldStep(file: seq<byte>, limit: nat -> nat, k: nat)
    ensures YieldFrom(file, limit, k) <==>
            (Position(file, limit, k) < |file| ==> limit(k) > 0) && YieldFrom(file, limit, k + 1)
  {
    hide Position;
    if YieldFrom(file, limit, k + 1) && (Position(file, limit, k) < |file| ==> limit(k) > 0) {
      forall j: nat | j >= k ensures Position(file, limit, j) < |file| ==> limit(j) > 0 {
        if j != k {
          assert j >= k + 1;
        }
      }
    }
  }

  lemma {:induction false} CopiedFrom(file: seq<byte>, limit: nat -> nat, k: nat)
    ensures Copied(file, limit, Position(file, limit, k), k) == |file| <==> YieldFrom(file, limit, k)
    decreases |file| - Position(file, limit, k)
  {
    hide Copied, YieldFrom;
    var at := Position(file, limit, k);
    CopiedStep(file, limit, at, k);
    YieldStep(file, limit, k);
    if at == |file| {
      AllYieldAtEnd(file, limit, k);
    } else if limit(k) > 0 {
      assert Position(file, limit, k + 1) == at + ReadSize(file, at, limit, k);
      CopiedFrom(file, limit, k + 1);
    }
  }

  lemma AllYieldAtEnd(file: seq<byte>, limit: nat -> nat, k: nat)
    requires Position(file, limit, k) == |file|
    ensures YieldFrom(file, limit, k)
  {
    hide Position;
    forall j: nat | j >= k ensures Position(file, limit, j) == |file| {
      StaysAtEnd(file, limit, k, j);
    }
  }

  lemma {:induction false} StaysAtEnd(file: seq<byte>, limit: nat -> nat, k: nat, j: nat)
    requires Position(file, limit, k) == |file| && j >= k
    ensures Position(file, limit, j) == |file|
    decreases j
  {
    if j > k {
      StaysAtEnd(file, limit, k, j - 1);
    }
  }

  /** The whole file is copied exactly when each read before its end yields a byte. */
  lemma CopiesWhole(file: seq<byte>, limit: nat -> nat)
    ensures Copied(file, limit, 0, 0) == |file| <==> EachReadYields(file, limit)
  {
    CopiedFrom(file, limit, 0);
  }

  /** AppendMetaData on a raw heap file whose contents are `target.bytes`; `metaData` is None when the
      file cannot be opened. On success the trailer gives both parts back exactly when each is shorter than
      2^32 bytes and no read before the end of the metadata yielded nothing. */
  method AppendMetaData(targetOpens: bool, target: AppendFile, metaData: Option<seq<byte>>, limit: nat -> nat)
    returns (ok: bool)
    modifies target
    ensures ok ==> targetOpens && metaData.Some?
    ensures ok ==> target.bytes == old(target.bytes) + metaData.value[..Copied(metaData.value, limit, 0, 0)]
                                   + Trailer(|old(target.bytes)|, |metaData.value|)
    ensures ok ==> (Split(target.bytes) == Some((old(target.bytes), metaData.value))
                    <==> |old(target.bytes)| < WORD && |metaData.value| < WORD
                         && EachReadYields(metaData.value, limit))
    ensures !targetOpens || metaData.None? ==> !ok && target.bytes == old(target.bytes)
    ensures targetOpens && metaData.Some? && (forall k :: !target.fails(k)) ==> ok
  {
    hide Split, Position, EachReadYields, Copied, ReadSize;
    var rawHeapFileSize := ToUint32(|target.bytes|);
    var metaDataFileSize := ToUint32(if metaData.Some? then |metaData.value| else 0);
    if !targetOpens || metaData.None? {
      return false;
    }
    ghost var heap := target.bytes;
    var file, copied, k := metaData.value, 0, 0;
    var readSize := ReadSize(file, copied, limit, k);
    while readSize > 0
      invariant copied <= |file| && readSize == ReadSize(file, copied, limit, k)
      invariant Copied(file, limit, copied, k) == Copied(file, limit, 0, 0)
      invariant target.bytes == heap + file[..copied]
      decreases |file| - copied
    {
      ok := target.Write(file[copied..copied + readSize]);
      if !ok {
        return false;
      }
      assert file[..copied] + file[copied..copied + readSize] == file[..copied + readSize];
      CopiedStep(file, limit, copied, k);
      copied := copied + readSize;
      k := k + 1;
      readSize := ReadSize(file, copied, limit, k);
    }
    CopiedStep(file, limit, copied, k);
    CopiesWhole(file, limit);
    TrailerRoundTrip(heap, file, copied);
    ok := target.Write(Bytes(rawHeapFileSize));
    if !ok {
      return false;
    }
    ok := target.Write(Bytes(metaDataFileSize));
    assert target.bytes == heap + file[..copied] + Trailer(|heap|, |file|) || !ok;
  }

  /** A first read that fails goes unnoticed: nothing of the metadata is copied, the call succeeds, and the
      trailer does not give the two parts back. */
  method ReadErrorGoesUnnoticed(heap: seq<byte>, metaData: seq<byte>) returns (ok: bool, target: AppendFile)
    requires metaData != []
    ensures ok && target.bytes == heap + Trailer(|heap|, |metaData|)
    ensures Split(target.bytes) != Some((heap, metaData))
  {
    target := new AppendFile(heap, _ => false);
    ok := AppendMetaData(true, target, Some(metaData), _ => 0);
    assert Position(metaData, _ => 0, 0) == 0;
    assert metaData[..0] == [] && heap + [] == heap;
  }
}
