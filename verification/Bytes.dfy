/** Bytes, little-endian words and the Option type shared by every component. */
module Bytes {

  type byte = x: int | 0 <= x < 256

  type Data = seq<byte>

  type uint32 = x: int | 0 <= x < 0x1_0000_0000

  type uint64 = x: int | 0 <= x < 0x1_0000_0000_0000_0000

  datatype Option<+T> = None | Some(value: T)

  // binary.LittleEndian.Uint32
  function Word(s: Data, at: nat): (w: uint32)
    requires at + 4 <= |s|
  {
    var b0: int, b1: int, b2: int, b3: int := s[at], s[at + 1], s[at + 2], s[at + 3];
    b0 + 0x100 * b1 + 0x1_0000 * b2 + 0x100_0000 * b3
  }

  // Byte k of a word, least significant first.
  function ByteOf(w: uint32, k: nat): byte
    requires k < 4
  {
    if k == 0 then w % 0x100 else ByteOf(w / 0x100, k - 1)
  }

  lemma BytesOfWord(w: uint32)
    ensures ByteOf(w, 0) as int + 0x100 * ByteOf(w, 1) as int + 0x1_0000 * ByteOf(w, 2) as int
            + 0x100_0000 * ByteOf(w, 3) as int == w
  {
    var q1 := w / 0x100;
    var q2 := q1 / 0x100;
    var q3 := q2 / 0x100;
    assert w == 0x100 * q1 + ByteOf(w, 0);
    assert ByteOf(w, 1) == ByteOf(q1, 0) && q1 == 0x100 * q2 + ByteOf(w, 1);
    assert ByteOf(w, 2) == ByteOf(q1, 1) == ByteOf(q2, 0) && q2 == 0x100 * q3 + ByteOf(w, 2);
    assert ByteOf(w, 3) == ByteOf(q1, 2) == ByteOf(q2, 1) == ByteOf(q3, 0) == q3;
  }

  // binary.LittleEndian.PutUint32
  function PutWord(s: Data, at: nat, w: uint32): (t: Data)
    requires at + 4 <= |s|
    ensures |t| == |s|
  {
    s[at := ByteOf(w, 0)][at + 1 := ByteOf(w, 1)][at + 2 := ByteOf(w, 2)][at + 3 := ByteOf(w, 3)]
  }

  lemma WordOfPutWord(s: Data, at: nat, w: uint32)
    requires at + 4 <= |s|
    ensures Word(PutWord(s, at, w), at) == w
  {
    BytesOfWord(w);
  }

  // The same four bytes are the same word, wherever they lie.
  lemma WordFrame(s: Data, at: nat, t: Data, at': nat)
    requires at + 4 <= |s| && at' + 4 <= |t|
    requires s[at..at + 4] == t[at'..at' + 4]
    ensures Word(s, at) == Word(t, at')
  {
    var u, v := s[at..at + 4], t[at'..at' + 4];
    assert u[0] == v[0] && u[1] == v[1] && u[2] == v[2] && u[3] == v[3];
  }

  function Zeros(n: nat): (z: Data)
    ensures |z| == n
  {
    seq(n, _ => 0)
  }

  // The number of bytes before the first zero byte, or all of them.
  function FirstZero(s: Data): (n: nat)
    ensures n <= |s|
    ensures forall i :: 0 <= i < n ==> s[i] != 0
    ensures n < |s| ==> s[n] == 0
  {
    if s == [] || s[0] == 0 then 0
    else
      var rest := FirstZero(s[1..]);
      assert forall i :: 0 < i <= rest ==> i < |s| ==> s[i] == s[1..][i - 1];
      1 + rest
  }
}
