/**
 * Sizes that the binning, the launch loops and the kernels share (primitives/Operator++.i.cuh,
 * lines 319-320, and primitives/Operator++.cuh, line 56).
 */
module EngineConstants {
  const MAX_BINS: nat := 2048
  const BINS_1D_DIM: nat := 32
  const BLOCK_SIZE: nat := 256
}
