/**
 Byte storage of the record ring. A record header is one `size_t`, stored in the same bytes that
 payloads use, so stale payload bytes can look like a header.
 */
module RecordWords {
  newtype byte = x: int | 0 <= x < 256

  function Pow256(n: nat): (r: nat)
    ensures r > 0
  {
    if n == 0 then 1 else 256 * Pow256(n - 1)
  }

  /** The k bytes of the word w, lowest byte first. */
  function ToBytes(w: nat, k: nat): (s: seq<byte>)
    ensures |s| == k
  {
    if k == 0 then [] else [(w % 256) as byte] + ToBytes(w / 256, k - 1)
  }

  function FromBytes(s: seq<byte>): nat {
    if s == [] then 0 else s[0] as nat + 256 * FromBytes(s[1..])
  }

  lemma {:induction false} WordRoundTrip(w: nat, k: nat)
    requires w < Pow256(k)
    ensures FromBytes(ToBytes(w, k)) == w
  {
    if k > 0 {
      assert w / 256 < Pow256(k - 1);
      WordRoundTrip(w / 256, k - 1);
      assert ToBytes(w, k)[1..] == ToBytes(w / 256, k - 1);
    }
  }

  function Load(mem: seq<byte>, off: nat, n: nat): (s: seq<byte>)
    requires off + n <= |mem|
    ensures |s| == n
  {
    mem[off..off + n]
  }

  function Store(mem: seq<byte>, off: nat, bs: seq<byte>): (r: seq<byte>)
    requires off + |bs| <= |mem|
    ensures |r| == |mem|
  {
    mem[..off] + bs + mem[off + |bs|..]
  }

  lemma LoadStoreSame(mem: seq<byte>, off: nat, bs: seq<byte>)
    requires off + |bs| <= |mem|
    ensures Load(Store(mem, off, bs), off, |bs|) == bs
  {
  }

  lemma LoadStoreOther(mem: seq<byte>, off: nat, bs: seq<byte>, o: nat, n: nat)
    requires off + |bs| <= |mem| && o + n <= |mem|
    requires o + n <= off || off + |bs| <= o
    ensures Load(Store(mem, off, bs), o, n) == Load(mem, o, n)
  {
  }

  /** A second store right behind the first extends what is read back. */
  lemma LoadStoreAppend(mem: seq<byte>, off: nat, n: nat, bs: seq<byte>)
    requires off + n + |bs| <= |mem|
    ensures Load(Store(mem, off + n, bs), off, n + |bs|) == Load(mem, off, n) + bs
  {
  }
}
