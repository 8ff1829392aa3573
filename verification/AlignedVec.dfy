/** A growable vector whose memory is a vector of aligned chunks: elements are written across chunk
    borders, and bytes that were never written are not initialised. */
module AlignedVectors {
  import opened IntOps

  /** A byte of memory that may not have been written yet. */
  datatype Cell = Uninit | Init(value: byte)

  /** An element is a value of a fixed number of bytes. */
  type Element = seq<byte>

  const USIZE_MAX: nat := 0xffff_ffff_ffff_ffff

  type Chunks = seq<seq<Cell>>

  /** Where element `e` starts, and how many bytes `n` chunks have. */
  function Off(size: nat, e: nat): nat { size * e }
  function Bytes(n: nat, chunk: nat): nat { n * chunk }

  ghost predicate Shaped(inner: Chunks, chunk: nat) {
    chunk > 0 && forall c | 0 <= c < |inner| :: |inner[c]| == chunk
  }

  // ----- Bytes of a chunked memory -----

  /** The chunk that byte `k` lies in, and its place there. */
  function ChunkOf(chunk: nat, k: nat): nat
    requires chunk > 0
  {
    k / chunk
  }

  function PlaceOf(chunk: nat, k: nat): nat
    requires chunk > 0
  {
    k % chunk
  }

  /** Byte `k` of the memory. */
  function At(inner: Chunks, chunk: nat, k: nat): Cell
    requires Shaped(inner, chunk) && k < Bytes(|inner|, chunk)
  {
    ByteInside(|inner|, chunk, k);
    inner[ChunkOf(chunk, k)][PlaceOf(chunk, k)]
  }

  lemma ByteInside(n: nat, chunk: nat, k: nat)
    requires chunk > 0 && k < Bytes(n, chunk)
    ensures ChunkOf(chunk, k) < n && PlaceOf(chunk, k) < chunk
  {
    assert k == k / chunk * chunk + k % chunk;
    Multiples(n, k / chunk, chunk);
  }

  /** No two bytes share a place. */
  lemma PlacesDiffer(chunk: nat, j: nat, k: nat)
    requires chunk > 0 && ChunkOf(chunk, j) == ChunkOf(chunk, k) && PlaceOf(chunk, j) == PlaceOf(chunk, k)
    ensures j == k
  {
    assert j == j / chunk * chunk + j % chunk && k == k / chunk * chunk + k % chunk;
  }

  /** Bytes follow one another through a chunk and on into the next. */
  lemma NextByte(chunk: nat, k: nat)
    requires chunk > 0
    ensures ChunkOf(chunk, 0) == 0 && PlaceOf(chunk, 0) == 0
    ensures if PlaceOf(chunk, k) + 1 < chunk
            then ChunkOf(chunk, k + 1) == ChunkOf(chunk, k) && PlaceOf(chunk, k + 1) == PlaceOf(chunk, k) + 1
            else ChunkOf(chunk, k + 1) == ChunkOf(chunk, k) + 1 && PlaceOf(chunk, k + 1) == 0
  {
    var q, r := k / chunk, k % chunk;
    assert k == q * chunk + r && (q + 1) * chunk == q * chunk + chunk;
    QuotientIs(0, chunk, 0, 0);
    if r + 1 < chunk {
      QuotientIs(k + 1, chunk, q, r + 1);
    } else {
      QuotientIs(k + 1, chunk, q + 1, 0);
    }
  }

  function WriteByte(inner: Chunks, chunk: nat, k: nat, b: byte): (r: Chunks)
    requires Shaped(inner, chunk) && k < Bytes(|inner|, chunk)
    ensures |r| == |inner| && Shaped(r, chunk)
    ensures forall j: nat | j < Bytes(|inner|, chunk) ::
              At(r, chunk, j) == if j == k then Init(b) else At(inner, chunk, j)
  {
    ByteInside(|inner|, chunk, k);
    OneByteChanged(inner, chunk, k, Init(b));
    inner[ChunkOf(chunk, k) := inner[ChunkOf(chunk, k)][PlaceOf(chunk, k) := Init(b)]]
  }

  /** Changing one cell of one chunk changes one byte. */
  lemma OneByteChanged(inner: Chunks, chunk: nat, k: nat, cell: Cell)
    requires Shaped(inner, chunk) && k < Bytes(|inner|, chunk)
    ensures ChunkOf(chunk, k) < |inner| && PlaceOf(chunk, k) < chunk
    ensures var r := inner[ChunkOf(chunk, k) := inner[ChunkOf(chunk, k)][PlaceOf(chunk, k) := cell]];
            && Shaped(r, chunk)
            && forall j: nat | j < Bytes(|inner|, chunk) ::
                 At(r, chunk, j) == if j == k then cell else At(inner, chunk, j)
  {
    hide ChunkOf, PlaceOf, Bytes;
    ByteInside(|inner|, chunk, k);
    var c, p := ChunkOf(chunk, k), PlaceOf(chunk, k);
    var r := inner[c := inner[c][p := cell]];
    forall j: nat | j < Bytes(|inner|, chunk)
      ensures At(r, chunk, j) == if j == k then cell else At(inner, chunk, j)
    {
      ByteInside(|inner|, chunk, j);
      if ChunkOf(chunk, j) == c && PlaceOf(chunk, j) == p {
        PlacesDiffer(chunk, j, k);
      }
    }
  }

  /** Writes consecutive bytes from `off` on. */
  function Write(inner: Chunks, chunk: nat, off: nat, bytes: seq<byte>): (r: Chunks)
    requires Shaped(inner, chunk) && off + |bytes| <= Bytes(|inner|, chunk)
    ensures |r| == |inner| && Shaped(r, chunk)
    ensures forall j: nat | j < Bytes(|inner|, chunk) ::
              At(r, chunk, j) == if off <= j < off + |bytes| then Init(bytes[j - off]) else At(inner, chunk, j)
  {
    if bytes == [] then inner
    else
      var n := |bytes| - 1;
      WriteByte(Write(inner, chunk, off, bytes[..n]), chunk, off + n, bytes[n])
  }

  /** More or fewer chunks; new ones are not initialised. */
  function ResizeChunks(inner: Chunks, chunk: nat, n: nat): (r: Chunks)
    requires Shaped(inner, chunk)
    ensures |r| == n && Shaped(r, chunk)
  {
    if n <= |inner| then inner[..n]
    else inner + seq(n - |inner|, _ => seq(chunk, _ => Uninit))
  }

  lemma ResizeChunksKeeps(inner: Chunks, chunk: nat, n: nat, k: nat)
    requires Shaped(inner, chunk) && k < Bytes(|inner|, chunk) && k < Bytes(n, chunk)
    ensures At(ResizeChunks(inner, chunk, n), chunk, k) == At(inner, chunk, k)
  {
    hide Bytes, ChunkOf, PlaceOf;
    ByteInside(|inner|, chunk, k);
    ByteInside(n, chunk, k);
    var c := ChunkOf(chunk, k);
    assert ResizeChunks(inner, chunk, n)[c] == inner[c];
  }

  /** How many chunks hold `bytes` bytes. */
  function ChunksFor(bytes: nat, chunk: nat): (n: nat)
    requires chunk > 0
    ensures Bytes(n, chunk) >= bytes
    ensures n > 0 ==> Bytes(n - 1, chunk) < bytes
  {
    assert bytes == bytes / chunk * chunk + bytes % chunk;
    var q := bytes / chunk;
    assert (q + 1) * chunk == q * chunk + chunk && (q - 1) * chunk == q * chunk - chunk;
    if bytes % chunk == 0 then q else q + 1
  }

  // ----- What a plain vector does -----

  function Resized(s: seq<Element>, n: nat, value: Element): (r: seq<Element>)
    ensures |r| == n
  {
    if n <= |s| then s[..n] else s + seq(n - |s|, _ => value)
  }

  // ----- The vector -----

  /** The bytes of element `e` are initialised and inside the chunks. */
  ghost predicate Holds(inner: Chunks, chunk: nat, size: nat, e: nat, value: Element)
    requires Shaped(inner, chunk)
  {
    |value| == size && Off(size, e) + size <= Bytes(|inner|, chunk)
    && forall i | 0 <= i < size :: At(inner, chunk, Off(size, e) + i) == Init(value[i])
  }

  class AlignedVec {
    const size: nat
    const chunk: nat
    var inner: Chunks
    var len: nat
    /** The elements that a plain vector would hold. */
    ghost var elements: seq<Element>

    ghost predicate Valid()
      reads this
    {
      && Shaped(inner, chunk) && len == |elements| && Off(size, len) <= USIZE_MAX
      && |inner| == ChunksFor(Off(size, len), chunk)
      && AllHold(inner, chunk, size, elements)
    }

    constructor (size: nat, chunk: nat)
      requires chunk > 0
      ensures Valid() && this.size == size && this.chunk == chunk && elements == []
    {
      this.size, this.chunk := size, chunk;
      inner, len, elements := [], 0, [];
      new;
      assert Off(size, 0) == 0;
    }

    /** Grows or shrinks like a plain vector, unless the size in bytes overflows. */
    method Resize(newLen: nat, value: Element) returns (ok: bool)
      requires Valid() && |value| == size
      modifies this
      ensures Valid()
      ensures ok <==> Off(size, newLen) <= USIZE_MAX
      ensures elements == if ok then Resized(old(elements), newLen, value) else old(elements)
    {
      assert chunk > 0;
      hide Resized, AllHold, Write, ChunksFor, ResizeChunks, Shaped, Off, Bytes;
      var newBytes := Off(size, newLen);
      if newBytes > USIZE_MAX {
        return false;
      }
      var oldLen, chunks := len, ChunksFor(newBytes, chunk);
      ghost var was := elements;
      ghost var now := Resized(was, Min(newLen, oldLen), value);
      ResizedPrefix(was, Min(newLen, oldLen), value);
      KeptSurvive(inner, chunk, size, was, now, newLen, chunks);
      var memory := ResizeChunks(inner, chunk, chunks);
      var offset := oldLen;
      while offset < newLen
        invariant Shaped(memory, chunk) && |memory| == chunks
        invariant oldLen <= offset && (offset <= newLen || offset == oldLen)
        invariant now == Resized(was, Min(newLen, offset), value) && AllHold(memory, chunk, size, now)
      {
        ResizedStep(was, offset, value);
        ElementFits(size, offset, newLen);
        AppendElement(memory, chunk, size, now, value);
        memory := Write(memory, chunk, Off(size, offset), value);
        now := now + [value];
        offset := offset + 1;
      }
      assert Min(newLen, offset) == newLen;
      inner, len, elements := memory, newLen, now;
      ok := true;
    }

    /** The elements, read back from memory. */
    method AsSlice() returns (s: seq<Element>)
      requires Valid()
      ensures s == elements
    {
      s := [];
      hide Off, Bytes, At, Shaped, Holds, ChunksFor;
      for e := 0 to len
        invariant s == elements[..e]
      {
        assert Holds(inner, chunk, size, e, elements[e]);
        s := s + [ReadElement(inner, chunk, size, e, elements[e])];
        assert elements[..e + 1] == elements[..e] + [elements[e]];
      }
    }
  }

  function ReadElement(inner: Chunks, chunk: nat, size: nat, e: nat, ghost value: Element): (r: Element)
    requires Shaped(inner, chunk) && Holds(inner, chunk, size, e, value)
    ensures r == value
  {
    Read(inner, chunk, Off(size, e), size, value)
  }

  /** The bytes from `off` on, all of them initialised. */
  function Read(inner: Chunks, chunk: nat, off: nat, n: nat, ghost value: Element): (r: seq<byte>)
    requires Shaped(inner, chunk) && off + n <= Bytes(|inner|, chunk) && n <= |value|
    requires forall i | 0 <= i < n :: At(inner, chunk, off + i) == Init(value[i])
    ensures r == value[..n]
  {
    if n == 0 then []
    else
      assert At(inner, chunk, off + (n - 1)) == Init(value[n - 1]);
      Read(inner, chunk, off, n - 1, value) + [At(inner, chunk, off + (n - 1)).value]
  }

  ghost predicate AllHold(inner: Chunks, chunk: nat, size: nat, elements: seq<Element>)
    requires Shaped(inner, chunk)
  {
    forall e | 0 <= e < |elements| :: Holds(inner, chunk, size, e, elements[e])
  }

  lemma ResizedPrefix(s: seq<Element>, n: nat, value: Element)
    requires n <= |s|
    ensures Resized(s, n, value) == s[..n]
  {
  }

  lemma ResizedStep(s: seq<Element>, n: nat, value: Element)
    requires |s| <= n
    ensures Resized(s, n + 1, value) == Resized(s, n, value) + [value]
  {
  }

  /** The elements that a resize keeps are still in memory after chunks were added or removed. */
  lemma KeptSurvive(inner: Chunks, chunk: nat, size: nat, elements: seq<Element>, kept: seq<Element>,
                    newLen: nat, chunks: nat)
    requires Shaped(inner, chunk) && AllHold(inner, chunk, size, elements)
    requires kept <= elements && |kept| <= newLen && Off(size, newLen) <= Bytes(chunks, chunk)
    ensures AllHold(ResizeChunks(inner, chunk, chunks), chunk, size, kept)
  {
    forall e | 0 <= e < |kept| ensures Holds(ResizeChunks(inner, chunk, chunks), chunk, size, e, kept[e]) {
      ElementFits(size, e, newLen);
      ElementSurvives(inner, chunk, size, e, elements[e], chunks);
    }
  }

  /** Writing the element behind the last one leaves the others alone. */
  lemma AppendElement(inner: Chunks, chunk: nat, size: nat, elements: seq<Element>, value: Element)
    requires Shaped(inner, chunk) && AllHold(inner, chunk, size, elements) && |value| == size
    requires Off(size, |elements|) + size <= Bytes(|inner|, chunk)
    ensures AllHold(Write(inner, chunk, Off(size, |elements|), value), chunk, size, elements + [value])
  {
    var o := |elements|;
    var after := Write(inner, chunk, Off(size, o), value);
    hide Write, At, Holds;
    forall e | 0 <= e <= o ensures Holds(after, chunk, size, e, (elements + [value])[e]) {
      if e < o {
        HoldsStill(inner, chunk, size, e, elements[e], o, value);
      } else {
        HoldsNow(inner, chunk, size, o, value);
      }
    }
  }

  lemma HoldsStill(inner: Chunks, chunk: nat, size: nat, e: nat, v: Element, o: nat, value: Element)
    requires Shaped(inner, chunk) && Holds(inner, chunk, size, e, v) && |value| == size && e < o
    requires Off(size, o) + size <= Bytes(|inner|, chunk)
    ensures Holds(Write(inner, chunk, Off(size, o), value), chunk, size, e, v)
  {
    var after := Write(inner, chunk, Off(size, o), value);
    ElementsApart(size, e, o);
    hide At;
    forall i | 0 <= i < size ensures At(after, chunk, Off(size, e) + i) == Init(v[i]) {
      assert At(inner, chunk, Off(size, e) + i) == Init(v[i]);
    }
  }

  lemma HoldsNow(inner: Chunks, chunk: nat, size: nat, o: nat, value: Element)
    requires Shaped(inner, chunk) && |value| == size && Off(size, o) + size <= Bytes(|inner|, chunk)
    ensures Holds(Write(inner, chunk, Off(size, o), value), chunk, size, o, value)
  {
    var after := Write(inner, chunk, Off(size, o), value);
    hide At;
    forall i | 0 <= i < size ensures At(after, chunk, Off(size, o) + i) == Init(value[i]) {
    }
  }

  lemma ElementFits(size: nat, e: nat, n: nat)
    requires e < n
    ensures Off(size, e) + size <= Off(size, n)
  {
    Multiples(e + 1, n, size);
    assert (e + 1) * size == e * size + size;
  }

  lemma ElementsApart(size: nat, e: nat, o: nat)
    requires e < o
    ensures Off(size, e) + size <= Off(size, o)
  {
    Multiples(e + 1, o, size);
    assert (e + 1) * size == Off(size, e) + size;
  }

  lemma ElementSurvives(inner: Chunks, chunk: nat, size: nat, e: nat, v: Element, chunks: nat)
    requires Shaped(inner, chunk) && Holds(inner, chunk, size, e, v) && Off(size, e) + size <= Bytes(chunks, chunk)
    ensures Holds(ResizeChunks(inner, chunk, chunks), chunk, size, e, v)
  {
    forall i | 0 <= i < size ensures At(ResizeChunks(inner, chunk, chunks), chunk, Off(size, e) + i) == Init(v[i]) {
      ResizeChunksKeeps(inner, chunk, chunks, Off(size, e) + i);
    }
  }

  /** Resizing with a sequence of lengths and values. */
  datatype Request = Request(len: nat, value: Element)

  ghost function AllResized(s: seq<Element>, reqs: seq<Request>): seq<Element> {
    if reqs == [] then s
    else
      var n := |reqs| - 1;
      Resized(AllResized(s, reqs[..n]), reqs[n].len, reqs[n].value)
  }

  /** Over any sequence of resizes that do not overflow, the vector reads back as a plain one resized the
      same way. */
  method ResizeAll(v: AlignedVec, reqs: seq<Request>) returns (s: seq<Element>)
    requires v.Valid() && v.elements == []
    requires forall r | 0 <= r < |reqs| :: |reqs[r].value| == v.size && Off(v.size, reqs[r].len) <= USIZE_MAX
    modifies v
    ensures v.Valid() && s == AllResized([], reqs)
  {
    for r := 0 to |reqs|
      invariant v.Valid() && v.elements == AllResized([], reqs[..r])
    {
      assert reqs[..r + 1][..r] == reqs[..r];
      var ok := v.Resize(reqs[r].len, reqs[r].value);
    }
    assert reqs[..|reqs|] == reqs;
    s := v.AsSlice();
  }
}
