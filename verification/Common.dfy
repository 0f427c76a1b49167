/** What several parts of the model share. */
module Options {
  datatype Option<+T> = None | Some(value: T)
}

/** enum sunxi_iommu_version */
module Versions {
  const V12 := 0x12
  const V14 := 0x14
}
