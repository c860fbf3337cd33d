/** The bus as a device sees it in one clock. */
module Wishbone {
  import opened Pins

  datatype Bus = Bus(strobe: bool, cycle: bool, writing: bool, address: nat, writedata: Word)

  /** check_wb0: a read of this device. */
  predicate Selected(b: Bus) {
    b.strobe && b.cycle && !b.writing
  }

  /** check_wb1: a write to it. */
  predicate Written(b: Bus) {
    b.strobe && b.cycle && b.writing
  }

  /** The two address bits a device decodes. */
  function Register(b: Bus): nat {
    b.address % 4
  }
}
