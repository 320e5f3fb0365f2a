/** The encoded size of a route answer, which decides whether its receiver survives it. */
module AnswerSizes {
  import opened BufferPool
  import opened Framing
  import opened Packing

  type Address = (Int32, Int32)

  /** Seven bits a byte. */
  function VarintSize(n: nat): (size: nat)
    requires n < 0x8000_0000
    ensures 1 <= size <= 5
    ensures n < 128 ==> size == 1
  {
    if n < 128 then 1
    else if n < 0x4000 then 2
    else if n < 0x20_0000 then 3
    else if n < 0x1000_0000 then 4
    else 5
  }

  /** A field of type int32: left out when it is zero, and ten bytes behind its tag when it is negative. */
  function FieldSize(x: Int32): (size: nat)
    ensures size == 0 <==> x == 0
    ensures x != 0 ==> 2 <= size <= 11
  {
    if x == 0 then 0 else 1 + if x < 0 then 10 else VarintSize(x)
  }

  function HostSize(a: Address): (size: nat)
    ensures 2 <= size <= 24
    ensures a.0 != 0 && a.1 != 0 ==> 6 <= size
  {
    var body := FieldSize(a.0) + FieldSize(a.1);
    1 + VarintSize(body) + body
  }

  function HostsSize(hosts: seq<Address>): nat {
    if hosts == [] then 0 else HostSize(hosts[0]) + HostsSize(hosts[1..])
  }

  /** ByteSizeLong of a GetRouteResponse. */
  function AnswerSize(modid: Int32, cmdid: Int32, hosts: seq<Address>): nat {
    HostsSize(hosts) + FieldSize(modid) + FieldSize(cmdid)
  }

  // ---- The size is the length of the encoding.

  /** Seven bits a byte, the lowest first; all bytes but the last have the top bit set. */
  function Varint(n: nat): seq<Byte> {
    if n < 128 then [n] else [128 + n % 128] + Varint(n / 128)
  }

  /** The tag of field number k, of wire type 0, and the value, with its sign extended to 64 bits. */
  function Field(k: nat, x: Int32): seq<Byte>
    requires k < 16
  {
    if x == 0 then [] else [8 * k] + Varint(ToUInt64(x))
  }

  /** A field of wire type 2: the tag, the length, the embedded message. */
  function Embedded(k: nat, bytes: seq<Byte>): seq<Byte>
    requires k < 16
  {
    [8 * k + 2] + Varint(|bytes|) + bytes
  }

  function HostsBytes(hosts: seq<Address>): seq<Byte> {
    if hosts == [] then []
    else Embedded(3, Field(1, hosts[0].0) + Field(2, hosts[0].1)) + HostsBytes(hosts[1..])
  }

  /** A GetRouteResponse on the wire. */
  function AnswerBytes(modid: Int32, cmdid: Int32, hosts: seq<Address>): seq<Byte> {
    Field(1, modid) + Field(2, cmdid) + HostsBytes(hosts)
  }

  function Power(k: nat): nat {
    if k == 0 then 1 else 128 * Power(k - 1)
  }

  lemma {:induction false} VarintLength(n: nat, k: nat)
    requires 0 < k
    ensures |Varint(n)| <= k <==> n < Power(k)
    decreases k
  {
    assert 1 <= |Varint(n)|;
    if k == 1 {
      assert Power(1) == 128 * Power(0);
      assert 128 <= n ==> 1 <= |Varint(n / 128)|;
    } else if 128 <= n {
      VarintLength(n / 128, k - 1);
    } else {
      PowerGrows(k);
    }
  }

  lemma {:induction false} PowerGrows(k: nat)
    requires 0 < k
    ensures 128 <= Power(k)
  {
    if 1 < k {
      PowerGrows(k - 1);
    } else {
      assert Power(0) == 1;
    }
  }

  lemma Powers()
    ensures Power(1) == 0x80 && Power(2) == 0x4000 && Power(3) == 0x20_0000 && Power(4) == 0x1000_0000
    ensures Power(5) == 0x8_0000_0000 && Power(9) == 0x8000_0000_0000_0000 && Power(10) == 0x40_0000_0000_0000_0000
  {
    assert Power(2) == 128 * Power(1) && Power(3) == 128 * Power(2) && Power(4) == 128 * Power(3);
    assert Power(5) == 128 * Power(4) && Power(6) == 128 * Power(5) && Power(7) == 128 * Power(6);
    assert Power(8) == 128 * Power(7) && Power(9) == 128 * Power(8) && Power(10) == 128 * Power(9);
  }

  lemma VarintSizeIsLength(n: nat)
    requires n < 0x8000_0000
    ensures VarintSize(n) == |Varint(n)|
  {
    hide Varint;
    Powers();
    VarintLength(n, 1);
    VarintLength(n, 2);
    VarintLength(n, 3);
    VarintLength(n, 4);
    VarintLength(n, 5);
    assert |Varint(n)| != 0 by { NotEmpty(n); }
  }

  lemma NotEmpty(n: nat)
    ensures |Varint(n)| != 0
  {
  }

  lemma FieldSizeIsLength(k: nat, x: Int32)
    requires k < 16
    ensures FieldSize(x) == |Field(k, x)|
  {
    hide Varint;
    if x < 0 {
      Powers();
      VarintLength(ToUInt64(x), 9);
      VarintLength(ToUInt64(x), 10);
    } else {
      VarintSizeIsLength(x);
    }
  }

  lemma {:induction false} HostsSizeIsLength(hosts: seq<Address>)
    ensures HostsSize(hosts) == |HostsBytes(hosts)|
  {
    hide Varint, Field, FieldSize, VarintSize;
    if hosts != [] {
      var a := hosts[0];
      FieldSizeIsLength(1, a.0);
      FieldSizeIsLength(2, a.1);
      VarintSizeIsLength(FieldSize(a.0) + FieldSize(a.1));
      HostsSizeIsLength(hosts[1..]);
    }
  }

  /** The size of an answer is the length of its encoding. */
  lemma AnswerSizeIsLength(modid: Int32, cmdid: Int32, hosts: seq<Address>)
    ensures AnswerSize(modid, cmdid, hosts) == |AnswerBytes(modid, cmdid, hosts)|
  {
    hide Varint, Field, FieldSize;
    FieldSizeIsLength(1, modid);
    FieldSizeIsLength(2, cmdid);
    HostsSizeIsLength(hosts);
  }

  /** The number that seven bits a byte, the lowest first, make up. */
  function Value(s: seq<Byte>): nat {
    if s == [] then 0 else (s[0] as int) % 128 + 128 * Value(s[1..])
  }

  /** A number can be read back, and its last byte is the only one without the top bit. */
  lemma {:induction false} VarintRoundTrip(n: nat)
    ensures Value(Varint(n)) == n
    ensures var s := Varint(n); forall i :: 0 <= i < |s| ==> (s[i] < 128 <==> i == |s| - 1)
  {
    if 128 <= n {
      VarintRoundTrip(n / 128);
      assert Varint(n)[1..] == Varint(n / 128);
    } else {
      assert Varint(n)[1..] == [];
    }
  }

  lemma {:induction false} HostsSizeWithout(hosts: seq<Address>, i: nat)
    requires i < |hosts|
    ensures HostsSize(hosts) == HostSize(hosts[i]) + HostsSize(hosts[..i] + hosts[i + 1..])
  {
    if i == 0 {
      assert hosts[..0] + hosts[1..] == hosts[1..];
    } else {
      HostsSizeWithout(hosts[1..], i - 1);
      assert hosts[1..][..i - 1] + hosts[1..][i..] == (hosts[..i] + hosts[i + 1..])[1..];
    }
  }

  lemma TakenOut<T>(s: seq<T>, i: nat)
    requires i < |s|
    ensures multiset(s[..i] + s[i + 1..]) == multiset(s) - multiset{s[i]}
  {
    assert s == s[..i] + ([s[i]] + s[i + 1..]);
  }

  /** The order in which the hosts come out of their set does not matter. */
  lemma {:induction false} SizeIgnoresOrder(hosts: seq<Address>, hosts': seq<Address>)
    requires multiset(hosts) == multiset(hosts')
    ensures HostsSize(hosts) == HostsSize(hosts')
    decreases |hosts|
  {
    hide HostSize;
    if hosts == [] {
      assert |multiset(hosts')| == 0;
    } else {
      assert hosts[0] in multiset(hosts');
      var i :| 0 <= i < |hosts'| && hosts'[i] == hosts[0];
      TakenOut(hosts, 0);
      TakenOut(hosts', i);
      assert hosts[..0] + hosts[1..] == hosts[1..];
      SizeIgnoresOrder(hosts[1..], hosts'[..i] + hosts'[i + 1..]);
      HostsSizeWithout(hosts', i);
    }
  }

  lemma {:induction false} HostsSizeBounds(hosts: seq<Address>)
    ensures 2 * |hosts| <= HostsSize(hosts) <= 24 * |hosts|
    ensures (forall a :: a in hosts ==> a.0 != 0 && a.1 != 0) ==> 6 * |hosts| <= HostsSize(hosts)
  {
    if hosts != [] {
      HostsSizeBounds(hosts[1..]);
    }
  }

  /** An answer is fatal to its receiver if it is too long, or if it is the answer for module (0, 0) without
      hosts and the receiver's read ends with it. Up to 2729 hosts it is never too long; above 10921 real
      ones it always is. */
  lemma FatalAnswers(modid: Int32, cmdid: Int32, hosts: seq<Address>, cut: bool)
    ensures var size := AnswerSize(modid, cmdid, hosts);
            && (Fatal(size, cut) <==>
                  MESSAGE_LENGTH_LIMIT < size || (modid == 0 && cmdid == 0 && hosts == [] && cut))
            && (|hosts| <= 2729 ==> size <= MESSAGE_LENGTH_LIMIT)
            && (10921 < |hosts| && (forall a :: a in hosts ==> a.0 != 0 && a.1 != 0) ==> MESSAGE_LENGTH_LIMIT < size)
  {
    HostsSizeBounds(hosts);
  }
}
