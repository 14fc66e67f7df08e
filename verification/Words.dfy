// Machine words. The modelled C++ code works on uint8_t and uint32_t; arithmetic that
// can leave the range is written with the wrapping operations below.
module Words {
  const WORD: int := 0x1_0000_0000

  type byte = x: int | 0 <= x < 256

  type uint32 = x: int | 0 <= x < 0x1_0000_0000

  // Unsigned 32-bit addition, subtraction and multiplication, each modulo 2^32.
  function Add32(a: uint32, b: uint32): uint32 {
    (a + b) % WORD
  }

  function Sub32(a: uint32, b: uint32): uint32 {
    (a - b) % WORD
  }

  function Mul32(a: uint32, b: uint32): uint32 {
    (a * b) % WORD
  }

  // The four bytes of a word in memory order.
  function Le32(x: uint32): (s: seq<byte>)
    ensures |s| == 4
  {
    [x % 256, x / 256 % 256, x / 256 / 256 % 256, x / 256 / 256 / 256]
  }

  function FromLe32(s: seq<byte>): (x: uint32)
    requires |s| == 4
  {
    s[0] as int + 256 * (s[1] as int) + 65536 * (s[2] as int) + 16777216 * (s[3] as int)
  }

  lemma Le32Inverse(x: uint32)
    ensures FromLe32(Le32(x)) == x
  {
    var q := x / 256;
    var r := q / 256;
    assert x == x % 256 + 256 * q && q == q % 256 + 256 * r && r == r % 256 + 256 * (r / 256);
  }

  // Ids handed out by a 32-bit counter that starts at 1 and wraps: the first n of them.
  predicate Issued(id: uint32, n: nat) {
    (id - 1) % WORD < n
  }

  lemma NextNotIssued(n: nat)
    ensures n < WORD ==> !Issued((1 + n) % WORD, n)
    ensures Issued((1 + n) % WORD, n + 1)
  {
  }
}
