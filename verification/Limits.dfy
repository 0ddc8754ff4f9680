/** Sizes shared by the parts of the VCHIQ library model. */
module Limits {
  const SLOTS: nat := 32              // VCHIQ_MAX_INSTANCE_SERVICES
  const WRAP: nat := 0x1_0000_0000    // unsigned int arithmetic is modulo this

  function Max(a: nat, b: nat): nat { if a < b then b else a }
}
