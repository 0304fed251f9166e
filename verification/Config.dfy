/** The shape of the tree (namespace config in db/dbformat.h). */
module Config {
  const NUM_LEVELS: nat := 7
  const MAX_MEM_COMPACT_LEVEL: nat := 2
}
