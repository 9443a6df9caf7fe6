/** The ranges of Rust's unsigned machine integers. */
module Words {
  const U32_RANGE: nat := 0x1_0000_0000
  const U64_RANGE: nat := 0x1_0000_0000_0000_0000
}
