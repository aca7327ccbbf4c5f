/**
 * The byte source the handshake decoders read from, modelled as a byte-slice
 * reader: the input is an immutable sequence of bytes and a cursor `pos`.
 * One `read` into a zero-initialised buffer of length `n` copies as many bytes
 * as are available (at most `n`), leaves the rest of the buffer zero, advances
 * the cursor by the number of bytes copied, and never fails.
 */
module Stream {

  /** An octet, as the `u8` of the source. */
  type Byte = b: int | 0 <= b < 256

  function Min(a: nat, b: nat): (m: nat)
    ensures m <= a && m <= b
    ensures m == a || m == b
  {
    if a <= b then a else b
  }

  /** Number of bytes still unread when the cursor stands at `pos` (none past the end). */
  function Remaining(s: seq<Byte>, pos: nat): (k: nat)
    ensures pos + k <= |s| || k == 0
    ensures k == 0 <==> |s| <= pos
  {
    if pos < |s| then |s| - pos else 0
  }

  /** The value a zero-initialised buffer cell holds after a read that reached index `i` of the input. */
  function ByteAt(s: seq<Byte>, i: nat): Byte {
    if i < |s| then s[i] else 0
  }

  function Zeros(n: nat): (z: seq<Byte>)
    ensures |z| == n
    ensures forall i :: 0 <= i < n ==> z[i] == 0
  {
    seq(n, _ => 0)
  }

  /** The buffer a read filled, and the cursor after it. */
  datatype Filled = Filled(buf: seq<Byte>, next: nat)

  /**
   * One `read` of `n` bytes at cursor `pos`. The buffer always has length `n`;
   * cell `i` holds input byte `pos + i` when that exists and 0 otherwise; the
   * cursor moves past exactly the bytes that existed.
   */
  function Read(s: seq<Byte>, pos: nat, n: nat): (r: Filled)
    ensures |r.buf| == n
    ensures pos <= r.next <= pos + n
    ensures r.next == pos + Min(n, Remaining(s, pos))
    ensures forall i :: 0 <= i < n ==> r.buf[i] == ByteAt(s, pos + i)
  {
    var k := Min(n, Remaining(s, pos));
    var copied := if k == 0 then [] else s[pos..pos + k];
    Filled(copied + Zeros(n - k), pos + k)
  }

  /** When `n` bytes are available, a read returns exactly them and consumes exactly `n`. */
  lemma ReadAvailable(s: seq<Byte>, pos: nat, n: nat)
    requires pos + n <= |s|
    ensures Read(s, pos, n) == Filled(s[pos..pos + n], pos + n)
  {
    var r := Read(s, pos, n);
    assert r.buf == s[pos..pos + n] by {
      forall i | 0 <= i < n ensures r.buf[i] == s[pos..pos + n][i] {
        assert r.buf[i] == ByteAt(s, pos + i);
      }
    }
  }

  /** A read past the end of the input consumes nothing and yields only zeros. */
  lemma ReadExhausted(s: seq<Byte>, pos: nat, n: nat)
    requires |s| <= pos
    ensures Read(s, pos, n) == Filled(Zeros(n), pos)
  {
  }
}
