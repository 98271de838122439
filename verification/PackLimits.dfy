/** The sizes and limits of packs and catalogs. */
module PackLimits {
  const PACK_HEADER_BYTES: nat := 20
  const PACK_INDEX_ENTRY_BYTES: nat := 40
  const MAX_PACK_ENTRY_BYTES: nat := 128 * 1024
  const MAX_PACK_BYTES: nat := 16 * 1024 * 1024
  const MIN_PACK_BYTES: nat := PACK_HEADER_BYTES + PACK_INDEX_ENTRY_BYTES + 1
  const MAX_PACK_ENTRIES: nat := (MAX_PACK_BYTES - PACK_HEADER_BYTES) / (PACK_INDEX_ENTRY_BYTES + 1)
  const MAX_PACKS_PER_SIZE_TIER: nat := 4
  const PACK_SIZE_TIER_COUNT: nat := 20
  const MAX_CATALOG_PACKS: nat := 256
  const MAX_CATALOG_PACK_BYTES: nat := 64 * 1024 * 1024
}
