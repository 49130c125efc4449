/** The tables and the flash chips as the code changes them: one object shared
    by the banks' collectors. */
module FlashDevice {
  import opened Layout
  import opened FlashState

  class Device {
    var table: seq<Place>                    // get_vpn, set_vpn
    var nand: map<(Blk, int), seq<Cell>>
    var bits: set<Place>                     // vbitmap
    var vcount: map<Blk, int>                // block_list[].vcount

    function State(): Flash
      reads this
    {
      Flash(table, nand, bits, vcount)
    }

    constructor (lpages: nat)
      ensures table == seq(lpages, _ => Unmapped) && nand == map[] && bits == {} && vcount == map[]
    {
      table, nand, bits, vcount := seq(lpages, _ => Unmapped), map[], {}, map[];
    }

    method GetVpn(lpn: int) returns (p: Place)
      requires 0 <= lpn < |table|
      ensures p == table[lpn]
    {
      p := table[lpn];
    }

    method SetVpn(lpn: int, p: Place)
      requires 0 <= lpn < |table|
      modifies this`table
      ensures table == old(table)[lpn := p]
    {
      table := table[lpn := p];
    }

    method ValidateVpn(p: Place)
      modifies this`bits
      ensures bits == old(bits) + {p}
    {
      bits := bits + {p};
    }

    method InvalidateVpn(p: Place)
      modifies this`bits
      ensures bits == old(bits) - {p}
    {
      bits := bits - {p};
    }

    method GetVcount(b: Blk) returns (v: int)
      requires b in vcount
      ensures v == vcount[b]
    {
      v := vcount[b];
    }

    method SetVcount(b: Blk, v: int)
      requires 0 <= v <= BLK_LPAGES || v == VC_MAX
      modifies this`vcount
      ensures vcount == old(vcount)[b := v]
    {
      vcount := vcount[b := v];
    }

    // One plane page: two cells.
    method ReadPage(b: Blk, page: int, plane: int) returns (low: Cell, high: Cell)
      requires (b, page) in nand && |nand[(b, page)]| == SLOTS && 0 <= plane < PLANES
      ensures low == nand[(b, page)][plane * 2] && high == nand[(b, page)][plane * 2 + 1]
    {
      low, high := nand[(b, page)][plane * 2], nand[(b, page)][plane * 2 + 1];
    }

    // A superpage is programmed once after its block's erasure.
    method Program(b: Blk, page: int, cells: seq<Cell>)
      requires 0 <= page < PAGES_PER_BLK && (b, page) !in nand && |cells| == SLOTS
      modifies this`nand
      ensures nand == old(nand)[(b, page) := cells]
    {
      nand := nand[(b, page) := cells];
    }

    method Erase(b: Blk)
      modifies this`nand
      ensures nand == Wiped(old(nand), b)
    {
      nand := map x | x in nand && x.0 != b :: nand[x];
    }
  }
}
