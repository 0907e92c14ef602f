/**
  The over-aligning allocator of `asio::any_completion_handler`. A block is carved out
  of a raw allocation at an aligned address, and the distance back to the raw base is
  hidden behind the block, where deallocation reads it. Sizes are 64-bit and wrap.
 */
module HandlerAllocator {
  import opened Prelude

  const WORD: nat := 0x1_0000_0000_0000_0000
  const HALF_WORD: nat := 0x8000_0000_0000_0000
  const OFFSET_SIZE: nat := 8

  // ------------------------------------------------------------------ the hidden offset

  function Power256(k: nat): nat { if k == 0 then 1 else 256 * Power256(k - 1) }

  /** Object representation of an offset, least significant byte first. */
  function Encode(x: nat, k: nat): (bytes: seq<Byte>)
    ensures |bytes| == k
  {
    if k == 0 then [] else [x % 256] + Encode(x / 256, k - 1)
  }

  function Decode(bytes: seq<Byte>): nat {
    if bytes == [] then 0 else bytes[0] + 256 * Decode(bytes[1..])
  }

  lemma {:induction false} DecodeEncode(x: nat, k: nat)
    requires x < Power256(k)
    ensures Decode(Encode(x, k)) == x
  {
    if k > 0 {
      DecodeEncode(x / 256, k - 1);
      assert Encode(x, k)[1..] == Encode(x / 256, k - 1);
    }
  }

  /** A `ptrdiff_t` read back from its eight bytes. */
  function SignedOffset(bytes: seq<Byte>): int {
    var x := Decode(bytes);
    if x < HALF_WORD then x else x - WORD
  }

  lemma {:induction false} OffsetRoundTrip(off: nat)
    requires off < HALF_WORD
    ensures SignedOffset(Encode(off, OFFSET_SIZE)) == off
  {
    assert Power256(8) == 256 * (256 * (256 * (256 * (256 * (256 * (256 * 256))))));
    DecodeEncode(off, OFFSET_SIZE);
  }

  /** The bytes of a `ptrdiff_t` as `memcpy` copies them. */
  method Represent(off: nat) returns (bytes: seq<Byte>)
    requires off < HALF_WORD
    ensures |bytes| == OFFSET_SIZE && SignedOffset(bytes) == off
  {
    OffsetRoundTrip(off);
    bytes := Encode(off, OFFSET_SIZE);
  }

  // ------------------------------------------------------------------ placing the block

  function AlignUp(p: nat, align: nat): nat
    requires align > 0
  {
    (p + align - 1) / align * align
  }

  lemma AlignUpBounds(p: nat, align: nat)
    requires align > 0
    ensures AlignUp(p, align) % align == 0
    ensures p <= AlignUp(p, align) <= p + align - 1
  {
    var q := (p + align - 1) / align;
    assert (p + align - 1) == q * align + (p + align - 1) % align;
    MultipleMod(q, align);
  }

  lemma MultipleMod(q: nat, align: nat)
    requires align > 0
    ensures (q * align) % align == 0
  {
    var d, r := (q * align) / align, (q * align) % align;
    assert (q - d) * align == r;
    SmallMultiple(q - d, align);
  }

  lemma SmallMultiple(k: int, a: nat)
    requires 0 <= k * a < a
    ensures k == 0
  {
  }

  /** The alignment step, section [ptr.align] of ISO/IEC 14882:2020: the first aligned
      address at which `size` of the `space` bytes from `p` still fit. */
  function Align(align: nat, size: nat, p: nat, space: nat): Option<nat>
    requires align > 0
  {
    if space < size || AlignUp(p, align) - p > space - size then None else Some(AlignUp(p, align))
  }

  function Space(size: nat, align: nat): nat
    requires align > 0
  {
    (size + align - 1) % WORD
  }

  /** What is asked of, and handed back to, the raw allocator. */
  function RawLength(size: nat, align: nat): nat
    requires align > 0
  {
    (Space(size, align) + OFFSET_SIZE) % WORD
  }

  /** Once the raw allocation has succeeded, the failure branch after the alignment step
      is unreachable - at every base address - exactly when the size computation has
      not wrapped. */
  lemma {:induction false} PlacementSucceedsIff(size: nat, align: nat, base: nat)
    requires size < WORD && 0 < align <= HALF_WORD
    ensures Align(align, size, base, Space(size, align)).Some? <==> size + align - 1 < WORD
  {
  }

  /** Only adding the size of the offset wraps. */
  predicate TrailingWraps(size: nat, align: nat)
    requires align > 0
  {
    size + align - 1 < WORD <= size + align - 1 + OFFSET_SIZE
  }

  lemma RawLengthUnwrapped(size: nat, align: nat)
    requires align > 0 && size + align - 1 + OFFSET_SIZE < WORD
    ensures RawLength(size, align) == size + align - 1 + OFFSET_SIZE
  {
  }

  /** ... and then the block and the offset behind it lie within the raw allocation
      exactly when adding the offset's size has not wrapped either. */
  lemma {:induction false} BlockFitsIff(size: nat, align: nat, base: nat)
    requires size < WORD && 0 < align <= HALF_WORD && size + align - 1 < WORD
    ensures var p := Align(align, size, base, Space(size, align)).value;
      && base <= p < base + align && p % align == 0
      && (p + size + OFFSET_SIZE <= base + RawLength(size, align) <==> size + align - 1 + OFFSET_SIZE < WORD)
  {
    PlacementSucceedsIff(size, align, base);
    AlignUpBounds(base, align);
  }

  /** Where it has wrapped, all of the offset lies behind the raw allocation. */
  lemma OffsetOutside(size: nat, align: nat, base: nat, p: nat)
    requires 0 < align <= HALF_WORD && TrailingWraps(size, align) && base <= p
    ensures base + RawLength(size, align) <= p + size
  {
  }

  // ------------------------------------------------------------------ the byte heap

  /** A block in use: where its raw allocation starts, what was asked for, and the
      bytes written behind it. */
  datatype Block = Block(base: nat, size: nat, align: nat, hidden: seq<Byte>)

  /** What every address holds. */
  type Memory = nat -> Byte

  /** `memcpy` from and to `a`. */
  function Load(m: Memory, a: nat, k: nat): (bytes: seq<Byte>)
    ensures |bytes| == k && Spelled(m, a, bytes)
  {
    seq(k, i requires i >= 0 => m(a + i))
  }

  function Store(m: Memory, a: nat, bytes: seq<Byte>): (r: Memory)
    ensures Spelled(r, a, bytes)
    ensures ChangedWithin(m, r, a, |bytes|)
  {
    (x: nat) => if a <= x < a + |bytes| then bytes[x - a] else m(x)
  }

  lemma LoadSpelled(m: Memory, a: nat, bytes: seq<Byte>)
    requires Spelled(m, a, bytes)
    ensures Load(m, a, |bytes|) == bytes
  {
    var loaded := Load(m, a, |bytes|);
    assert forall i: nat :: i < |bytes| ==> loaded[i] == m(a + i) == bytes[i];
  }

  ghost predicate Spelled(m: Memory, a: nat, bytes: seq<Byte>) {
    forall i: nat :: i < |bytes| ==> m(a + i) == bytes[i]
  }

  ghost predicate Same(m: Memory, r: Memory, a: nat, k: nat) {
    forall x: nat :: a <= x < a + k ==> r(x) == m(x)
  }

  /** Nothing changes but the `k` bytes from `a` on. */
  ghost predicate ChangedWithin(m: Memory, r: Memory, a: nat, k: nat) {
    forall x: nat :: !(a <= x < a + k) ==> r(x) == m(x)
  }

  predicate Apart(base: nat, length: nat, base': nat, length': nat) {
    base + length <= base' || base' + length' <= base
  }

  // ------------------------------------------------------------------ the heap invariant

  /** `p` is where a block of this size and alignment may start in its raw allocation. */
  predicate InRaw(raw: map<nat, nat>, p: nat, b: Block) {
    && 0 < b.align <= HALF_WORD
    && b.base in raw && raw[b.base] == b.size + b.align - 1 + OFFSET_SIZE < WORD
    && b.base <= p < b.base + b.align
    && p + b.size + OFFSET_SIZE <= b.base + raw[b.base]
  }

  /** ... and the bytes behind it are in place. */
  ghost predicate BlockOk(m: Memory, raw: map<nat, nat>, p: nat, b: Block) {
    && InRaw(raw, p, b)
    && |b.hidden| == OFFSET_SIZE
    && Spelled(m, p + b.size, b.hidden)
  }

  /** The bytes behind each block spell its distance from the raw base. */
  ghost predicate OffsetsHidden(blocks: map<nat, Block>) {
    forall p :: p in blocks ==> SignedOffset(blocks[p].hidden) == p - blocks[p].base
  }

  ghost predicate RawApart(raw: map<nat, nat>) {
    forall b, c :: b in raw && c in raw && b != c ==> Apart(b, raw[b], c, raw[c])
  }

  ghost predicate OneBlockEach(blocks: map<nat, Block>) {
    forall p, q :: p in blocks && q in blocks && p != q ==> blocks[p].base != blocks[q].base
  }

  ghost predicate Sound(m: Memory, raw: map<nat, nat>, blocks: map<nat, Block>) {
    && RawApart(raw)
    && OneBlockEach(blocks)
    && forall p :: p in blocks ==> BlockOk(m, raw, p, blocks[p])
  }

  /** Every block in use still is, with the same bytes in it. */
  ghost predicate Undisturbed(blocks: map<nat, Block>, m: Memory, blocks': map<nat, Block>, m': Memory) {
    forall q :: q in blocks ==> q in blocks' && blocks'[q] == blocks[q] && Same(m, m', q, blocks[q].size)
  }

  /** One more block is in use than before. */
  ghost predicate Added(before: map<nat, Block>, after: map<nat, Block>, p: nat, base: nat, size: nat, align: nat) {
    && p !in before && after.Keys == before.Keys + {p}
    && (forall q :: q in before ==> after[q] == before[q])
    && after[p].base == base && after[p].size == size && after[p].align == align
  }

  /** What any raw allocator guarantees of the memory it returns. */
  predicate FreeRegion(raw: map<nat, nat>, base: nat, length: nat) {
    base > 0 && base + length <= WORD && forall b :: b in raw ==> Apart(base, length, b, raw[b]) && b != base
  }

  /** Memory that changes clear of a block and its offset leaves the block as it was. */
  lemma BlockUntouched(m: Memory, r: Memory, raw: map<nat, nat>, a: nat, k: nat, p: nat, b: Block)
    requires BlockOk(m, raw, p, b)
    requires ChangedWithin(m, r, a, k)
    requires Apart(a, k, p, b.size + OFFSET_SIZE)
    ensures BlockOk(r, raw, p, b) && Same(m, r, p, b.size)
  {
  }

  lemma {:induction false} AddRaw(m: Memory, r: Memory, raw: map<nat, nat>, blocks: map<nat, Block>, base: nat, length: nat)
    requires Sound(m, raw, blocks) && FreeRegion(raw, base, length)
    requires ChangedWithin(m, r, base, length)
    ensures Sound(r, raw[base := length], blocks)
    ensures forall p :: p in blocks ==> blocks[p].base != base && Same(m, r, p, blocks[p].size)
  {
    forall p | p in blocks
      ensures BlockOk(r, raw[base := length], p, blocks[p]) && blocks[p].base != base && Same(m, r, p, blocks[p].size)
    {
      assert BlockOk(m, raw, p, blocks[p]);
      BlockUntouched(m, r, raw, base, length, p, blocks[p]);
    }
  }

  /** Writing the hidden bytes behind a block newly placed in raw memory nobody uses. */
  lemma {:induction false} AddBlock(m: Memory, r: Memory, raw: map<nat, nat>, blocks: map<nat, Block>, p: nat, b: Block)
    requires Sound(m, raw, blocks) && InRaw(raw, p, b) && |b.hidden| == OFFSET_SIZE
    requires forall q :: q in blocks ==> blocks[q].base != b.base
    requires Spelled(r, p + b.size, b.hidden)
    requires ChangedWithin(m, r, p + b.size, OFFSET_SIZE)
    ensures p !in blocks && Sound(r, raw, blocks[p := b])
    ensures Undisturbed(blocks, m, blocks[p := b], r)
  {
    forall q | q in blocks
      ensures q != p && BlockOk(r, raw, q, blocks[q]) && Same(m, r, q, blocks[q].size)
    {
      assert BlockOk(m, raw, q, blocks[q]);
      assert Apart(b.base, raw[b.base], blocks[q].base, raw[blocks[q].base]);
      BlockUntouched(m, r, raw, p + b.size, OFFSET_SIZE, q, blocks[q]);
    }
  }

  lemma {:induction false} AddHidden(blocks: map<nat, Block>, p: nat, b: Block)
    requires OffsetsHidden(blocks) && p !in blocks && SignedOffset(b.hidden) == p - b.base
    ensures OffsetsHidden(blocks[p := b]) && Added(blocks, blocks[p := b], p, b.base, b.size, b.align)
  {
  }

  /** What is read from behind a block leads back to its raw allocation. */
  lemma {:induction false} BaseRecovered(m: Memory, raw: map<nat, nat>, blocks: map<nat, Block>, p: nat)
    requires p in blocks && BlockOk(m, raw, p, blocks[p]) && OffsetsHidden(blocks)
    ensures p - SignedOffset(Load(m, p + blocks[p].size, OFFSET_SIZE)) == blocks[p].base
  {
    LoadSpelled(m, p + blocks[p].size, blocks[p].hidden);
  }

  lemma {:induction false} DropBlock(m: Memory, raw: map<nat, nat>, blocks: map<nat, Block>, p: nat)
    requires Sound(m, raw, blocks) && p in blocks
    ensures Sound(m, raw - {blocks[p].base}, blocks - {p})
  {
    forall q | q in blocks - {p} ensures BlockOk(m, raw - {blocks[p].base}, q, blocks[q]) {
      assert BlockOk(m, raw, q, blocks[q]);
    }
  }

  /** A user's store inside block `p` disturbs no other block and no offset. */
  lemma {:induction false} WriteBlock(m: Memory, r: Memory, raw: map<nat, nat>, blocks: map<nat, Block>, p: nat, i: nat)
    requires Sound(m, raw, blocks) && p in blocks && i < blocks[p].size
    requires forall x: nat :: x != p + i ==> r(x) == m(x)
    ensures Sound(r, raw, blocks)
    ensures forall q :: q in blocks && q != p ==> Same(m, r, q, blocks[q].size)
  {
  }

  /** Blocks in use never overlap, not even in the offsets behind them. */
  lemma {:induction false} LiveBlocksDisjoint(m: Memory, raw: map<nat, nat>, blocks: map<nat, Block>, p: nat, q: nat)
    requires Sound(m, raw, blocks) && p in blocks && q in blocks && p != q
    ensures Apart(p, blocks[p].size + OFFSET_SIZE, q, blocks[q].size + OFFSET_SIZE)
  {
  }

  // ------------------------------------------------------------------ the class

  class HandlerMemory {
    var memory: Memory
    /** Raw allocations not yet handed back, by base; and the blocks users hold. */
    var raw: map<nat, nat>
    var blocks: map<nat, Block>

    ghost predicate Valid()
      reads this
    {
      Sound(memory, raw, blocks) && OffsetsHidden(blocks)
    }

    constructor ()
      ensures Valid() && raw == map[] && blocks == map[]
    {
      memory := _ => 0;
      raw, blocks := map[], map[];
    }

    /** `got` is what the raw allocator returns for the length asked, if anything, and
        `junk` what the new memory holds. A size that wraps leaves the raw allocation
        behind and fails. A size for which only the offset wraps gives a block that
        does not lie in its raw allocation, and the offset is stored behind that. */
    method Allocate(size: nat, align: nat, got: Option<nat>, junk: seq<Byte>) returns (p: Option<nat>)
      requires Valid() && size < WORD && 0 < align <= HALF_WORD
      requires got.Some? ==> FreeRegion(raw, got.value, RawLength(size, align)) && |junk| == RawLength(size, align)
      modifies this
      ensures p.Some? <==> got.Some? && size + align - 1 < WORD
      ensures raw == if got.Some? then old(raw)[got.value := RawLength(size, align)] else old(raw)
      ensures p.Some? ==> p.value != 0 && p.value % align == 0 && got.value <= p.value < got.value + align
      ensures p.None? || TrailingWraps(size, align) ==> blocks == old(blocks)
      ensures p.None? || !TrailingWraps(size, align) ==>
        Valid() && Undisturbed(old(blocks), old(memory), blocks, memory)
      ensures p.Some? && !TrailingWraps(size, align) ==> Added(old(blocks), blocks, p.value, got.value, size, align)
      ensures p.Some? && TrailingWraps(size, align) ==>
        && got.value + raw[got.value] <= p.value + size
        && SignedOffset(Load(memory, p.value + size, OFFSET_SIZE)) == p.value - got.value
    {
      if got.None? {
        return None;
      }
      var space := Space(size, align);
      var base := got.value;
      ObtainRaw(base, RawLength(size, align), junk);
      PlacementSucceedsIff(size, align, base);
      p := Align(align, size, base, space);
      if p.Some? {
        BlockFitsIff(size, align, base);
        if TrailingWraps(size, align) {
          OffsetOutside(size, align, base, p.value);
          var bytes := HideOffset(p.value, size, base);
          LoadSpelled(memory, p.value + size, bytes);
        } else {
          RawLengthUnwrapped(size, align);
          Carve(p.value, size, align, base);
        }
      }
    }

    /** What the raw allocator does. */
    method ObtainRaw(base: nat, length: nat, junk: seq<Byte>)
      requires Valid() && FreeRegion(raw, base, length) && |junk| == length
      modifies this`memory, this`raw
      ensures Valid() && raw == old(raw)[base := length]
      ensures Undisturbed(blocks, old(memory), blocks, memory)
      ensures forall q :: q in blocks ==> blocks[q].base != base
    {
      var r := Store(memory, base, junk);
      AddRaw(memory, r, raw, blocks, base, length);
      memory := r;
      raw := raw[base := length];
    }

    /** Stores the distance to the raw base behind the block. */
    method HideOffset(p: nat, size: nat, base: nat) returns (bytes: seq<Byte>)
      requires base <= p < base + HALF_WORD
      modifies this`memory
      ensures |bytes| == OFFSET_SIZE && SignedOffset(bytes) == p - base
      ensures Spelled(memory, p + size, bytes) && ChangedWithin(old(memory), memory, p + size, OFFSET_SIZE)
    {
      bytes := Represent(p - base);
      memory := Store(memory, p + size, bytes);
    }

    /** ... which makes it a block in use where it lies in its raw allocation. */
    method Carve(p: nat, size: nat, align: nat, base: nat)
      requires Valid() && InRaw(raw, p, Block(base, size, align, []))
      requires forall q :: q in blocks ==> blocks[q].base != base
      modifies this`memory, this`blocks
      ensures Valid() && Added(old(blocks), blocks, p, base, size, align)
      ensures Undisturbed(old(blocks), old(memory), blocks, memory)
    {
      ghost var m, before := memory, blocks;
      var bytes := HideOffset(p, size, base);
      var b := Block(base, size, align, bytes);
      blocks := blocks[p := b];
      AddBlock(m, memory, raw, before, p, b);
      AddHidden(before, p, b);
    }

    /** A user storing into its own block. */
    method Write(p: nat, i: nat, byte: Byte)
      requires Valid() && p in blocks && i < blocks[p].size
      modifies this`memory
      ensures Valid()
      ensures memory(p + i) == byte && forall x: nat :: x != p + i ==> memory(x) == old(memory(x))
      ensures forall q :: q in blocks && q != p ==> Same(old(memory), memory, q, blocks[q].size)
    {
      var r := Store(memory, p + i, [byte]);
      assert r(p + i + 0) == [byte][0];
      WriteBlock(memory, r, raw, blocks, p, i);
      memory := r;
    }

    /** Hands back exactly the raw allocation the block was carved from, found through
        the hidden offset alone. */
    method Deallocate(p: Option<nat>, size: nat, align: nat) returns (freed: Option<(nat, nat)>)
      requires Valid()
      requires p.Some? ==> p.value in blocks && blocks[p.value].size == size && blocks[p.value].align == align
      modifies this`raw, this`blocks
      ensures Valid()
      ensures p.None? ==> freed == None && raw == old(raw) && blocks == old(blocks)
      ensures p.Some? ==> var b := old(blocks[p.value]);
        && b.base in old(raw) && freed == Some((b.base, old(raw[b.base])))
        && raw == old(raw) - {b.base} && blocks == old(blocks) - {p.value}
    {
      if p.None? {
        return None;
      }
      var base, length := FindRaw(p.value, size, align);
      DropBlock(memory, raw, blocks, p.value);
      freed := Some((base, length));
      raw := raw - {base};
      blocks := blocks - {p.value};
    }

    /** Follows the hidden offset, and computes the length anew. */
    method FindRaw(p: nat, size: nat, align: nat) returns (base: nat, length: nat)
      requires Valid() && p in blocks && blocks[p].size == size && blocks[p].align == align
      ensures base == blocks[p].base && base in raw && length == raw[base]
    {
      assert BlockOk(memory, raw, p, blocks[p]);
      BaseRecovered(memory, raw, blocks, p);
      base := p - SignedOffset(Load(memory, p + size, OFFSET_SIZE));
      length := (size + align - 1 + OFFSET_SIZE) % WORD;
    }
  }

  // ------------------------------------------------------------------ whole runs

  /** One use of the allocator: with what the raw allocator answers, or on block `p`. */
  datatype Action =
    | Obtain(size: nat, align: nat, got: Option<nat>, junk: seq<Byte>)
    | Set(p: nat, i: nat, byte: Byte)
    | GiveBack(p: nat)

  /** What callers and the raw allocator guarantee about an action. */
  predicate Possible(raw: map<nat, nat>, blocks: map<nat, Block>, a: Action) {
    match a
    case Obtain(size, align, got, junk) =>
      && size < WORD && 0 < align <= HALF_WORD
      && !TrailingWraps(size, align)
      && (got.Some? ==> FreeRegion(raw, got.value, RawLength(size, align)) && |junk| == RawLength(size, align))
    case Set(p, i, _) => p in blocks && i < blocks[p].size
    case GiveBack(p) => p in blocks
  }

  /** The action stores into byte `i` of block `p`, or gives the block back. */
  predicate Touches(a: Action, p: nat, i: nat) {
    a == GiveBack(p) || (a.Set? && a.p == p && a.i == i)
  }

  /** Blocks not given back stay where they are, and so does every byte of them that is
      not stored to. */
  ghost predicate Kept(a: Action, blocks: map<nat, Block>, m: Memory, blocks': map<nat, Block>, m': Memory) {
    forall q: nat, j: nat {:trigger Touches(a, q, j)} :: q in blocks && j < blocks[q].size && !Touches(a, q, j) ==>
      q in blocks' && blocks'[q] == blocks[q] && m'(q + j) == m(q + j)
  }

  lemma {:induction false} SetKeeps(m: Memory, r: Memory, raw: map<nat, nat>, blocks: map<nat, Block>, p: nat, i: nat, byte: Byte)
    requires Sound(m, raw, blocks) && p in blocks && i < blocks[p].size
    requires forall x: nat :: x != p + i ==> r(x) == m(x)
    ensures Kept(Set(p, i, byte), blocks, m, blocks, r)
  {
    forall q: nat, j: nat | q in blocks && j < blocks[q].size && !Touches(Set(p, i, byte), q, j)
      ensures r(q + j) == m(q + j)
    {
      if q != p {
        LiveBlocksDisjoint(m, raw, blocks, p, q);
      }
    }
  }

  lemma {:induction false} UndisturbedKept(a: Action, blocks: map<nat, Block>, m: Memory, blocks': map<nat, Block>, m': Memory)
    requires Undisturbed(blocks, m, blocks', m')
    ensures Kept(a, blocks, m, blocks', m')
  {
    forall q: nat, j: nat | q in blocks && j < blocks[q].size && !Touches(a, q, j) ensures m'(q + j) == m(q + j) {
      assert Same(m, m', q, blocks[q].size);
    }
  }

  predicate Wraps(a: Action) { a.Obtain? && a.size + a.align - 1 >= WORD }

  function Bases(blocks: map<nat, Block>): set<nat> {
    set p | p in blocks :: blocks[p].base
  }

  /** Raw allocations as (base, length) pairs. */
  function Outstanding(raw: map<nat, nat>): multiset<(nat, nat)> { multiset(Pairs(raw)) }

  function Pairs(raw: map<nat, nat>): set<(nat, nat)> { set b | b in raw :: (b, raw[b]) }

  lemma {:induction false} OutstandingAdd(raw: map<nat, nat>, base: nat, length: nat)
    requires base !in raw
    ensures Outstanding(raw[base := length]) == Outstanding(raw) + multiset{(base, length)}
  {
    var more := raw[base := length];
    forall b | b in raw ensures (b, raw[b]) in Pairs(more) {
      assert b in more && more[b] == raw[b];
    }
    assert base in more && more[base] == length;
    assert Pairs(more) == Pairs(raw) + {(base, length)};
  }

  lemma {:induction false} OutstandingDrop(raw: map<nat, nat>, base: nat)
    requires base in raw
    ensures Outstanding(raw) == Outstanding(raw - {base}) + multiset{(base, raw[base])}
  {
    assert raw == (raw - {base})[base := raw[base]];
    OutstandingAdd(raw - {base}, base, raw[base]);
  }

  lemma {:induction false} BasesDrop(blocks: map<nat, Block>, p: nat)
    requires OneBlockEach(blocks) && p in blocks
    ensures Bases(blocks - {p}) == Bases(blocks) - {blocks[p].base}
  {
    forall q | q in blocks && q != p ensures blocks[q].base in Bases(blocks - {p}) {
      assert q in blocks - {p} && (blocks - {p})[q] == blocks[q];
    }
  }

  lemma {:induction false} BasesAdd(before: map<nat, Block>, after: map<nat, Block>, p: nat, base: nat, size: nat, align: nat)
    requires Added(before, after, p, base, size, align)
    ensures Bases(after) == Bases(before) + {base}
  {
  }

  lemma Regroup<T>(o: multiset<T>, r: multiset<T>, out: multiset<T>, got: multiset<T>, back: multiset<T>, left: multiset<T>)
    requires o == r + out && out + got == left + back
    ensures o + got == (r + back) + left
  {
    assert o + got == r + (out + got);
  }

  method ActObtain(mem: HandlerMemory, a: Action) returns (obtained: seq<(nat, nat)>)
    requires mem.Valid() && Possible(mem.raw, mem.blocks, a) && a.Obtain?
    modifies mem
    ensures mem.Valid()
    ensures obtained == if a.got.Some? then [(a.got.value, RawLength(a.size, a.align))] else []
    ensures Outstanding(mem.raw) == Outstanding(old(mem.raw)) + multiset(obtained)
    ensures Kept(a, old(mem.blocks), old(mem.memory), mem.blocks, mem.memory)
    ensures old(mem.raw.Keys == Bases(mem.blocks)) && !Wraps(a) ==> mem.raw.Keys == Bases(mem.blocks)
  {
    ghost var raw, blocks, m := mem.raw, mem.blocks, mem.memory;
    var p := mem.Allocate(a.size, a.align, a.got, a.junk);
    UndisturbedKept(a, blocks, m, mem.blocks, mem.memory);
    obtained := if a.got.Some? then [(a.got.value, RawLength(a.size, a.align))] else [];
    if a.got.Some? {
      OutstandingAdd(raw, a.got.value, RawLength(a.size, a.align));
    }
    if p.Some? {
      BasesAdd(blocks, mem.blocks, p.value, a.got.value, a.size, a.align);
    }
  }

  method ActSet(mem: HandlerMemory, p: nat, i: nat, byte: Byte)
    requires mem.Valid() && p in mem.blocks && i < mem.blocks[p].size
    modifies mem`memory
    ensures mem.Valid() && mem.memory(p + i) == byte
    ensures Kept(Set(p, i, byte), mem.blocks, old(mem.memory), mem.blocks, mem.memory)
  {
    ghost var m := mem.memory;
    mem.Write(p, i, byte);
    SetKeeps(m, mem.memory, mem.raw, mem.blocks, p, i, byte);
  }

  method ActGiveBack(mem: HandlerMemory, p: nat) returns (returned: seq<(nat, nat)>)
    requires mem.Valid() && p in mem.blocks
    modifies mem
    ensures mem.Valid()
    ensures |returned| == 1
    ensures Outstanding(old(mem.raw)) == Outstanding(mem.raw) + multiset(returned)
    ensures Kept(GiveBack(p), old(mem.blocks), old(mem.memory), mem.blocks, mem.memory)
    ensures old(mem.raw.Keys == Bases(mem.blocks)) ==> mem.raw.Keys == Bases(mem.blocks)
  {
    BasesDrop(mem.blocks, p);
    var freed := mem.Deallocate(Some(p), mem.blocks[p].size, mem.blocks[p].align);
    OutstandingDrop(old(mem.raw), freed.value.0);
    returned := [freed.value];
  }

  /** One action, if it is possible: an allocation obtains what the raw allocator gave,
      a deallocation returns one raw allocation, and nothing else does either. Blocks not
      given back stay where they are, and so does every byte of them not stored to. */
  method Act(mem: HandlerMemory, a: Action) returns (obtained: seq<(nat, nat)>, returned: seq<(nat, nat)>)
    requires mem.Valid()
    modifies mem
    ensures mem.Valid()
    ensures var can := Possible(old(mem.raw), old(mem.blocks), a);
      && obtained == (if can && a.Obtain? && a.got.Some? then [(a.got.value, RawLength(a.size, a.align))] else [])
      && |returned| == (if can && a.GiveBack? then 1 else 0)
    ensures Outstanding(old(mem.raw)) + multiset(obtained) == Outstanding(mem.raw) + multiset(returned)
    ensures Kept(a, old(mem.blocks), old(mem.memory), mem.blocks, mem.memory)
    ensures old(mem.raw.Keys == Bases(mem.blocks)) && !Wraps(a) ==> mem.raw.Keys == Bases(mem.blocks)
  {
    obtained, returned := [], [];
    if Possible(mem.raw, mem.blocks, a) {
      match a
      case Obtain(_, _, _, _) => obtained := ActObtain(mem, a);
      case Set(p, i, byte) => ActSet(mem, p, i, byte);
      case GiveBack(p) => returned := ActGiveBack(mem, p);
    }
  }

  /** Any interleaving of allocations, user writes and deallocations: what went back to
      the raw allocator together with what is still out is exactly what came from it,
      base and length, nothing twice; and as long as no size wraps, what is still out
      belongs to blocks in use. */
  method Session(actions: seq<Action>) returns (mem: HandlerMemory, obtained: seq<(nat, nat)>, returned: seq<(nat, nat)>)
    ensures mem.Valid()
    ensures multiset(obtained) == multiset(returned) + Outstanding(mem.raw)
    ensures (forall a :: a in actions ==> !Wraps(a)) ==> mem.raw.Keys == Bases(mem.blocks)
  {
    mem := new HandlerMemory();
    obtained, returned := [], [];
    for k := 0 to |actions|
      invariant mem.Valid() && fresh(mem)
      invariant multiset(obtained) == multiset(returned) + Outstanding(mem.raw)
      invariant (forall a :: a in actions ==> !Wraps(a)) ==> mem.raw.Keys == Bases(mem.blocks)
    {
      assert actions[k] in actions;
      ghost var out := Outstanding(mem.raw);
      var got, back := Act(mem, actions[k]);
      Regroup(multiset(obtained), multiset(returned), out, multiset(got), multiset(back), Outstanding(mem.raw));
      obtained, returned := obtained + got, returned + back;
    }
  }
  /** What a user stores in a live block is what is read there, whatever else is
      allocated, stored and given back, until that byte is stored to again or the block
      given back. */
  method StoredByteStays(mem: HandlerMemory, p: nat, i: nat, byte: Byte, actions: seq<Action>)
    requires mem.Valid() && p in mem.blocks && i < mem.blocks[p].size
    requires forall a :: a in actions ==> !Touches(a, p, i)
    modifies mem
    ensures mem.Valid() && p in mem.blocks && mem.blocks[p] == old(mem.blocks)[p]
    ensures mem.memory(p + i) == byte
  {
    mem.Write(p, i, byte);
    for k := 0 to |actions|
      invariant mem.Valid() && p in mem.blocks && mem.blocks[p] == old(mem.blocks)[p]
      invariant mem.memory(p + i) == byte
    {
      assert !Touches(actions[k], p, i);
      var _, _ := Act(mem, actions[k]);
    }
  }
}
