/** Sizes, register numbers, command codes and durations of device/device_emu.h and
    driver/driver.h, together with the decomposition of a device address into its
    block, page and byte number. */
module Geometry {
  type Byte = x: int | 0 <= x < 256

  const PAGE_SIZE: nat := 256           // NUM_BYTES
  const BLOCK_SIZE: nat := 65536        // NUM_PAGES * NUM_BYTES
  const STORE_SIZE: nat := 16777216     // NUM_BLOCKS * NUM_PAGES * NUM_BYTES

  const C_READ_SETUP: Byte := 1
  const C_READ_EXECUTE: Byte := 2
  const C_PROGRAM_SETUP: Byte := 3
  const C_PROGRAM_EXECUTE: Byte := 4
  const C_ERASE_SETUP: Byte := 5
  const C_ERASE_EXECUTE: Byte := 6
  const C_DUMMY: Byte := 7

  const PN_STATUS: nat := 0
  const PN_RESET: nat := 1
  const DEVICE_READY: nat := 0
  const DEVICE_BUSY: nat := 1

  const READ_PAGE_DURATION: nat := 100
  const WRITE_PAGE_DURATION: nat := 600
  const ERASE_BLOCK_DURATION: nat := 2000

  const NAND_POLL_INTERVAL_US: nat := 25
  const TIMEOUT_READ_PAGE_US: nat := READ_PAGE_DURATION + NAND_POLL_INTERVAL_US
  const TIMEOUT_WRITE_PAGE_US: nat := WRITE_PAGE_DURATION + NAND_POLL_INTERVAL_US
  const TIMEOUT_ERASE_BLOCK_US: nat := ERASE_BLOCK_DURATION + NAND_POLL_INTERVAL_US

  /** One more than the largest 32-bit unsigned int. */
  const UINT_LIMIT: nat := 0x1_0000_0000

  /** Where the last page and the last block of the 32-bit address space begin. */
  const LAST_PAGE: nat := UINT_LIMIT - PAGE_SIZE
  const LAST_BLOCK: nat := UINT_LIMIT - BLOCK_SIZE

  function PageStart(o: nat): nat {
    o / PAGE_SIZE * PAGE_SIZE
  }

  function BlockStart(o: nat): nat {
    o / BLOCK_SIZE * BLOCK_SIZE
  }

  /** Every page and every block lies within the store. */
  lemma StartsFit(a: nat)
    requires a < STORE_SIZE
    ensures PageStart(a) <= a < PageStart(a) + PAGE_SIZE <= STORE_SIZE
    ensures BlockStart(a) <= a < BlockStart(a) + BLOCK_SIZE <= STORE_SIZE
  {
  }

  /** Moving on within a page by 1 and then by n. */
  lemma StepOnPage(c: nat, n: nat)
    ensures var d := PageStart(c) + (c + 1) % PAGE_SIZE;
            && PageStart(d) == PageStart(c)
            && d % PAGE_SIZE == (c % PAGE_SIZE + 1) % PAGE_SIZE
            && (d + n) % PAGE_SIZE == (c + (1 + n)) % PAGE_SIZE
  {
  }

  /** Conversion of an unsigned int to an unsigned char. */
  function ToByte(x: nat): Byte {
    x % 256
  }

  /** The three bytes that the framework sends are the digits of the wrapped address. */
  lemma AddressDigits(o: nat)
    ensures o % STORE_SIZE
         == ToByte(o / BLOCK_SIZE) * BLOCK_SIZE + ToByte(o / PAGE_SIZE) * PAGE_SIZE + ToByte(o)
    ensures ToByte(o % BLOCK_SIZE / PAGE_SIZE) == ToByte(o / PAGE_SIZE)
    ensures ToByte(o % PAGE_SIZE) == ToByte(o)
  {
    var p, y := o / PAGE_SIZE, o % PAGE_SIZE;
    var b, q := p / 256, p % 256;
    Division(o, BLOCK_SIZE, b, q * PAGE_SIZE + y);
    Division(q * PAGE_SIZE + y, PAGE_SIZE, q, y);
    Division(o, STORE_SIZE, b / 256, b % 256 * BLOCK_SIZE + q * PAGE_SIZE + y);
  }

  /** Unsigned overflow changes neither the index in the store nor the place on a page. */
  lemma UnsignedWraps(x: nat)
    ensures x % UINT_LIMIT % STORE_SIZE == x % STORE_SIZE
    ensures x % UINT_LIMIT % PAGE_SIZE == x % PAGE_SIZE
  {
  }

  /** Quotient and remainder are determined by what they have to satisfy. */
  lemma Division(x: nat, d: nat, q: nat, r: nat)
    requires r < d && x == q * d + r
    ensures x / d == q && x % d == r
  {
    var e := x / d - q;
    assert e * d == r - x % d;
  }
}
