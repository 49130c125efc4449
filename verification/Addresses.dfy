/** How a place is written down in a mapping-table entry: the address of a
    logical page in flash (ATLWrapper.cpp:40-51, 1603), a write-buffer slot
    (ATLWrapper.cpp:1511, read back at 1372-1382), or VC_MAX. */
module Addresses {
  import opened Layout
  import opened FlashState

  const CHANNELS: int := 4                 // NAND_NUM_CHANNELS
  const BANKS_PER_CHANNEL: int := 2
  const BANKS: int := 8
  const BLKS: int := 1987                  // BLKS_PER_PLANE
  const LPAGES_PER_BANK: int := 2034688    // PLANES_PER_BANK * BLKS_PER_PLANE * PAGES_PER_BLK * LPAGE_PER_PPAGE
  const WRITE_TYPES: int := 3              // WRITE_TYPE_NUM

  predicate Exists(p: Place) {
    match p
    case Unmapped => true
    case Nand(b, page, slot) => 0 <= b.bank < BANKS && 0 <= b.no < BLKS && 0 <= page < PAGES_PER_BLK
      && 0 <= slot < SLOTS
    case Buffered(bank, kind, slot) => 0 <= bank < BANKS && 0 <= slot < SLOTS
  }

  // The entries the table may hold.
  predicate Entry(v: int) {
    0 <= v < BANKS * LPAGES_PER_BANK || v == VC_MAX
    || WRITE_BUFFER_BIT <= v < WRITE_BUFFER_BIT + BANKS * WRITE_TYPES * SLOTS
  }

  // Exclusive or of a 32-bit word with WRITE_BUFFER_BIT.
  function Toggle(v: int): int
    requires 0 <= v < 2 * WRITE_BUFFER_BIT
  {
    if v < WRITE_BUFFER_BIT then v + WRITE_BUFFER_BIT else v - WRITE_BUFFER_BIT
  }

  function KindNo(k: WriteType): int {
    match k
    case SW => 0
    case RW => 1
    case JN => 2
  }

  // plane_ppn, with the plane and the half taken from the slot, and the
  // write-buffer expression.
  function Encode(p: Place): int
    requires Exists(p)
  {
    match p
    case Unmapped => VC_MAX
    case Nand(b, page, slot) =>
      (b.bank * (PAGES_PER_BLK * BLKS * PLANES) + b.no * PLANES * PAGES_PER_BLK + slot / 2 * PAGES_PER_BLK + page) * 2
        + slot % 2
    case Buffered(bank, kind, slot) =>
      Toggle((bank * WRITE_TYPES + KindNo(kind)) * PLANES * 2 + slot)
  }

  // get_channel_from_vpn, get_bank_from_vpn, get_vpn_offset_in_bank,
  // get_super_block, get_plane and get_page_offset on a flash address.
  function DecodeNand(v: int): Place
    requires 0 <= v < BANKS * LPAGES_PER_BANK
  {
    var channel := v / (BANKS_PER_CHANNEL * LPAGES_PER_BANK);
    var bank := v % (BANKS_PER_CHANNEL * LPAGES_PER_BANK) / LPAGES_PER_BANK;
    var inBank := v % LPAGES_PER_BANK;
    var ppage := v / 2 % (PAGES_PER_BLK * BLKS * PLANES);
    Nand(Blk(channel * BANKS_PER_CHANNEL + bank, inBank / BLK_LPAGES), ppage % PAGES_PER_BLK,
         ppage / PAGES_PER_BLK % PLANES * 2 + v % 2)
  }

  function DecodeBuffer(v: int): Place
    requires WRITE_BUFFER_BIT <= v < WRITE_BUFFER_BIT + BANKS * WRITE_TYPES * SLOTS
  {
    var t := Toggle(v);
    var channel, r := t / (BANKS_PER_CHANNEL * WRITE_TYPES * SLOTS), t % (BANKS_PER_CHANNEL * WRITE_TYPES * SLOTS);
    var bank, q := r / (WRITE_TYPES * SLOTS), r % (WRITE_TYPES * SLOTS);
    var kind, o := q / SLOTS, q % SLOTS;
    var plane, half := o / 2, o % 2;
    Buffered(channel * BANKS_PER_CHANNEL + bank,
      if kind == 0 then SW else if kind == 1 then RW else JN, plane * 2 + half)
  }

  // The tests in the order the code makes them.
  function Decode(v: int): Place
    requires Entry(v)
  {
    if v == VC_MAX then Unmapped
    else if v >= WRITE_BUFFER_BIT then DecodeBuffer(v)
    else DecodeNand(v)
  }

  // Every place has an entry of its own, and every entry a place.
  lemma RoundTrip(p: Place)
    requires Exists(p)
    ensures Entry(Encode(p)) && Decode(Encode(p)) == p
  {
    match p
    case Unmapped =>
    case Nand(b, page, slot) => NandRoundTrip(b, page, slot);
    case Buffered(bank, kind, slot) => BufferRoundTrip(bank, kind, slot);
  }

  lemma NandRoundTrip(b: Blk, page: int, slot: int)
    requires Exists(Nand(b, page, slot))
    ensures 0 <= Encode(Nand(b, page, slot)) < BANKS * LPAGES_PER_BANK
    ensures DecodeNand(Encode(Nand(b, page, slot))) == Nand(b, page, slot)
  {
    var v := Encode(Nand(b, page, slot));
    var ppage, half := b.no * 512 + slot / 2 * 128 + page, slot % 2;
    var inBank := ppage * 2 + half;
    Radix(v, b.bank, inBank, LPAGES_PER_BANK);
    Radix(v, b.bank / 2, b.bank % 2 * LPAGES_PER_BANK + inBank, BANKS_PER_CHANNEL * LPAGES_PER_BANK);
    Radix(b.bank % 2 * LPAGES_PER_BANK + inBank, b.bank % 2, inBank, LPAGES_PER_BANK);
    Radix(inBank, b.no, slot / 2 * 256 + page * 2 + half, BLK_LPAGES);
    Radix(v, b.bank * 1017344 + ppage, half, 2);
    Radix(v / 2, b.bank, ppage, 1017344);
    Radix(ppage, b.no * 4 + slot / 2, page, PAGES_PER_BLK);
    Radix(ppage / PAGES_PER_BLK, b.no, slot / 2, PLANES);
  }

  lemma Radix(v: int, a: int, b: int, k: int)
    requires k > 0 && v == a * k + b && 0 <= b < k
    ensures v / k == a && v % k == b
  {
    OneQuotient(v / k, v % k, a, b, k);
  }

  lemma OneQuotient(q: int, r: int, a: int, b: int, k: int)
    requires k > 0 && q * k + r == a * k + b && 0 <= r < k && 0 <= b < k
    ensures q == a && r == b
  {
    var d := q - a;
    assert d * k == q * k - a * k;
    assert d * k == b - r;
    if d >= 1 {
      AtLeast(d, k);
    } else if d <= -1 {
      AtLeast(-d, k);
    }
  }

  lemma AtLeast(d: int, k: int)
    requires d >= 1 && k > 0
    ensures d * k >= k
  {
  }

  lemma BufferRoundTrip(bank: int, kind: WriteType, slot: int)
    requires Exists(Buffered(bank, kind, slot))
    ensures WRITE_BUFFER_BIT <= Encode(Buffered(bank, kind, slot)) < WRITE_BUFFER_BIT + BANKS * WRITE_TYPES * SLOTS
    ensures DecodeBuffer(Encode(Buffered(bank, kind, slot))) == Buffered(bank, kind, slot)
  {
    var q := KindNo(kind) * SLOTS + slot;
    var t := bank * 24 + q;
    assert Encode(Buffered(bank, kind, slot)) == Toggle(t) && 0 <= t < BANKS * 24;
    Radix(t, bank / 2, bank % 2 * 24 + q, 48);
    Radix(bank % 2 * 24 + q, bank % 2, q, 24);
    Radix(q, KindNo(kind), slot, SLOTS);
  }

  lemma EveryEntry(v: int)
    requires Entry(v)
    ensures Exists(Decode(v)) && Encode(Decode(v)) == v
  {
    if 0 <= v < BANKS * LPAGES_PER_BANK {
      NandEntry(v);
    }
  }

  lemma NandEntry(v: int)
    requires 0 <= v < BANKS * LPAGES_PER_BANK
    ensures Exists(DecodeNand(v)) && Encode(DecodeNand(v)) == v
  {
    var bank, inBank := v / LPAGES_PER_BANK, v % LPAGES_PER_BANK;
    var ppage, half := inBank / 2, inBank % 2;
    Radix(v, bank / 2, bank % 2 * LPAGES_PER_BANK + inBank, BANKS_PER_CHANNEL * LPAGES_PER_BANK);
    Radix(bank % 2 * LPAGES_PER_BANK + inBank, bank % 2, inBank, LPAGES_PER_BANK);
    Radix(v, bank * 1017344 + ppage, half, 2);
    Radix(v / 2, bank, ppage, 1017344);
    var page, q := ppage % PAGES_PER_BLK, ppage / PAGES_PER_BLK;
    Radix(inBank, q / PLANES, q % PLANES * 256 + page * 2 + half, BLK_LPAGES);
    Radix(q % PLANES * 2 + half, q % PLANES, half, 2);
  }

  // The bank and the block of a flash address.
  lemma BlockOfEntry(p: Place)
    requires Exists(p) && p.Nand?
    ensures Encode(p) / LPAGES_PER_BANK == p.blk.bank && Encode(p) / BLK_LPAGES == p.blk.bank * BLKS + p.blk.no
  {
    var inBlock := p.slot / 2 * 256 + p.page * 2 + p.slot % 2;
    Radix(Encode(p), p.blk.bank, p.blk.no * BLK_LPAGES + inBlock, LPAGES_PER_BANK);
    Radix(Encode(p), p.blk.bank * BLKS + p.blk.no, inBlock, BLK_LPAGES);
  }

  // ------------------------------------------------------- the table

  // The table of places a table of entries stands for.
  ghost function Places(table: seq<nat>): seq<Place>
    requires forall l :: 0 <= l < |table| ==> Entry(table[l])
  {
    seq(|table|, l requires 0 <= l < |table| => Decode(table[l]))
  }

  // Writing the entry of a place into the table of entries is writing the
  // place into the table of places; reading commutes too.
  lemma SetPlace(table: seq<nat>, l: int, p: Place)
    requires (forall k :: 0 <= k < |table| ==> Entry(table[k])) && 0 <= l < |table| && Exists(p)
    ensures Encode(p) >= 0 && Entry(Encode(p))
    ensures Places(table[l := Encode(p)]) == Places(table)[l := p]
    ensures Encode(Places(table)[l]) == table[l] && Exists(Places(table)[l])
    ensures forall k :: 0 <= k < |table| ==> (Places(table)[k] == p <==> table[k] == Encode(p))
  {
    RoundTrip(p);
    forall k | 0 <= k < |table|
      ensures Exists(Places(table)[k]) && Encode(Places(table)[k]) == table[k]
    {
      EveryEntry(table[k]);
    }
  }
}
