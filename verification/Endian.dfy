/** Numbers written out in octets, high octet first, as the network and the hashes have them. */
module Endian {
  import opened Bytes

  /** `n` modulo 256^len, big-endian. */
  function BigEndian(n: nat, len: nat): (r: seq<byte>)
    ensures |r| == len
  {
    if len == 0 then [] else BigEndian(n / 256, len - 1) + [(n % 256) as byte]
  }

  function Pow256(len: nat): (p: nat)
    ensures p > 0
  {
    if len == 0 then 1 else 256 * Pow256(len - 1)
  }

  /** Only the low `len` octets of a number show. */
  lemma {:induction false} BigEndianWraps(n: nat, q: nat, len: nat)
    ensures BigEndian(n + q * Pow256(len), len) == BigEndian(n, len)
  {
    if len == 0 {
    } else {
      var p, m := Pow256(len - 1), n + q * Pow256(len);
      assert q * Pow256(len) == 256 * (q * p);
      DivModUnique(m, 256, n / 256 + q * p, n % 256);
      BigEndianWraps(n / 256, q, len - 1);
    }
  }

  lemma {:induction false} BigEndianSplits(n: nat, q: nat, r: nat, a: nat, b: nat)
    requires n == q * Pow256(b) + r && r < Pow256(b)
    ensures BigEndian(n, a + b) == BigEndian(q, a) + BigEndian(n, b)
  {
    if b == 0 {
      assert BigEndian(n, 0) == [];
    } else {
      var low := [(n % 256) as byte];
      DropOctet(n, q, r, Pow256(b - 1));
      BigEndianSplits(n / 256, q, r / 256, a, b - 1);
      assert a + b - 1 == a + (b - 1);
      calc {
        BigEndian(n, a + b);
        BigEndian(n / 256, a + (b - 1)) + low;
        BigEndian(q, a) + BigEndian(n / 256, b - 1) + low;
        BigEndian(q, a) + BigEndian(n, b);
      }
    }
  }

  lemma DropOctet(n: nat, q: nat, r: nat, p: nat)
    requires n == q * (256 * p) + r && r < 256 * p
    ensures n / 256 == q * p + r / 256 && r / 256 < p
  {
    assert q * (256 * p) == 256 * (q * p);
    DivModUnique(n, 256, q * p + r / 256, r % 256);
  }

  /** `s` is `n` written out big-endian. */
  predicate Writes(n: nat, s: seq<byte>) {
    BigEndian(n, |s|) == s
  }

  lemma WritesNext(n: nat, s: seq<byte>, b: byte, m: nat)
    requires Writes(n, s) && m == n * 256 + b as nat
    ensures Writes(m, s + [b])
  {
    assert m / 256 == n && m % 256 == b as nat;
    OctetBack(b);
  }

  lemma OctetBack(b: byte)
    ensures (b as nat) as byte == b
  {
  }

  /** The number of four octets. */
  function Quad(a: byte, b: byte, c: byte, e: byte): nat {
    ((a as nat * 256 + b as nat) * 256 + c as nat) * 256 + e as nat
  }

  lemma WritesFour(n: nat, s: seq<byte>, a: byte, b: byte, c: byte, e: byte, m: nat)
    requires Writes(n, s) && m == n * 0x1_0000_0000 + Quad(a, b, c, e)
    ensures Writes(m, s + [a, b, c, e])
  {
    var w: nat := n * 256 + a as nat;
    var x: nat := w * 256 + b as nat;
    var y: nat := x * 256 + c as nat;
    WritesNext(n, s, a, w);
    WritesNext(w, s + [a], b, x);
    WritesNext(x, s + [a] + [b], c, y);
    WritesNext(y, s + [a] + [b] + [c], e, m);
    assert s + [a] + [b] + [c] + [e] == s + [a, b, c, e];
  }

  lemma QuadOctets(a: byte, b: byte, c: byte, e: byte)
    ensures BigEndian(Quad(a, b, c, e), 4) == [a, b, c, e]
  {
    WritesFour(0, [], a, b, c, e, Quad(a, b, c, e));
    assert [] + [a, b, c, e] == [a, b, c, e];
  }

  /** The number that a string of octets stands for. */
  function Number(s: seq<byte>): nat {
    if s == [] then 0 else Number(s[..|s| - 1]) * 256 + s[|s| - 1] as nat
  }

  /** Written out again, that number is the string: for every string of octets. */
  lemma {:induction false} NumberWrites(s: seq<byte>)
    ensures Writes(Number(s), s)
  {
    if s == [] {
    } else {
      var n := |s| - 1;
      NumberWrites(s[..n]);
      WritesNext(Number(s[..n]), s[..n], s[n], Number(s));
      assert s[..n] + [s[n]] == s;
    }
  }
}
