/** Sizes and marker values shared by the modules (RSP_Header.h:26-36,
    ATLWrapper.h:17-40, ATLWrapper.cpp:66). */
module Layout {
  const CORES: int := 2                      // NUM_FTL_CORE
  const PAGES_PER_BLK: int := 128
  const PLANES: int := 4                     // PLANES_PER_BANK
  const SLOTS: int := 8                      // PLANES_PER_BANK * LPAGE_PER_PPAGE
  const BLK_LPAGES: int := 1024              // PAGES_PER_BLK * SLOTS
  const VC_MAX: int := 0xffff_ffff
  const INVALID_LPN: int := 0x07ff_ffff      // RSP_INVALID_LPN
  const NO_BLOCK: int := VC_MAX / 512        // the block no page number points to
  const WRITE_BUFFER_BIT: int := 0x8000_0000
}
