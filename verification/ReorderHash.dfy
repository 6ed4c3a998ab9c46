/** The hash of the reorder table, bit by bit, and source addresses whose flows it spreads. */
module ReorderHash {
  import opened Serial
  import opened ReorderModel

  /** The final mixing of `key_hash`. */
  function Mix(b: bv32): bv32 {
    var c := (b ^ (b >> 16)) * 0x85ebca6b;
    var d := (c ^ (c >> 13)) * 0xc2b2ae35;
    d ^ (d >> 16)
  }

  /** The bits of a 32-bit field; the fields of a key are never larger. */
  function Bits(n: nat): bv32 {
    if n < M32 then n as bv32 else 0
  }

  function Combine(src: bv32, dst: bv32, sport: bv32, dport: bv32): bv32 {
    src ^ (dst * 0x9e3779b9) ^ ((sport << 16) | dport)
  }

  function Fold(k: Key): bv32 {
    Combine(Bits(k.srcIp), Bits(k.dstIp), Bits(k.srcPort), Bits(k.dstPort))
  }

  /** `key_hash` */
  function KeyHash(k: Key): nat {
    Mix(Fold(k)) as nat
  }

  /** The flow of a source address, everything else zero. */
  function From(x: bv32): Key {
    Key(x as nat, 0, 0, 0)
  }

  lemma BitsBack(x: bv32)
    ensures Bits(x as nat) == x
  {
  }

  lemma BitsZero()
    ensures Bits(0) == 0
  {
  }

  lemma CombineSource(x: bv32)
    ensures Combine(x, 0, 0, 0) == x
  {
  }

  lemma FoldSource(x: bv32)
    ensures Fold(From(x)) == x
  {
    hide Bits, Combine;
    BitsZero();
    BitsBack(x);
    CombineSource(x);
  }

  lemma HashSource(x: bv32)
    ensures KeyHash(From(x)) == Mix(x) as nat
  {
    hide Mix, Fold;
    FoldSource(x);
  }

  /** The i-th source address hashes to i. */
  function Source(i: nat): bv32 {
    match i
    case 0 => 0x0
    case 1 => 0xd61f40c
    case 2 => 0x1ac3e819
    case 3 => 0xb7b20012
    case 4 => 0x16546020
    case 5 => 0xb9b26c13
    case 6 => 0x153114b2
    case 7 => 0x8297d5cc
    case 8 => 0x4bdc17f4
    case 9 => 0x537b8f5d
    case 10 => 0x193124b4
    case 11 => 0x10579975
    case 12 => 0xb0fa96f3
    case 13 => 0x3764ea98
    case 14 => 0xaafaea03
    case 15 => 0x815d81f1
    case 16 => 0x5cb7e564
    case 17 => 0xff2f3c9f
    case 18 => 0x4cc3064c
    case 19 => 0x7aa3af5e
    case 20 => 0x132f18e5
    case 21 => 0x1d263814
    case 22 => 0x20af32eb
    case 23 => 0xddf81089
    case 24 => 0xcbc63a9
    case 25 => 0xbb89ac02
    case 26 => 0x6ec9d531
    case 27 => 0xa7c0ca28
    case 28 => 0x5af14843
    case 29 => 0xbde6d6d9
    case 30 => 0xa8853b1e
    case 31 => 0xec766caf
    case 32 => 0xb4725694
    case _ => 0x54623a5c
  }

  lemma Sources0(i: nat)
    requires 0 <= i <= 3
    ensures Mix(Source(i)) as nat == i
  {
    assert Mix(0x0) == 0
        && Mix(0xd61f40c) == 1
        && Mix(0x1ac3e819) == 2
        && Mix(0xb7b20012) == 3;
  }

  lemma Sources1(i: nat)
    requires 4 <= i <= 7
    ensures Mix(Source(i)) as nat == i
  {
    assert Mix(0x16546020) == 4
        && Mix(0xb9b26c13) == 5
        && Mix(0x153114b2) == 6
        && Mix(0x8297d5cc) == 7;
  }

  lemma Sources2(i: nat)
    requires 8 <= i <= 11
    ensures Mix(Source(i)) as nat == i
  {
    assert Mix(0x4bdc17f4) == 8
        && Mix(0x537b8f5d) == 9
        && Mix(0x193124b4) == 10
        && Mix(0x10579975) == 11;
  }

  lemma Sources3(i: nat)
    requires 12 <= i <= 15
    ensures Mix(Source(i)) as nat == i
  {
    assert Mix(0xb0fa96f3) == 12
        && Mix(0x3764ea98) == 13
        && Mix(0xaafaea03) == 14
        && Mix(0x815d81f1) == 15;
  }

  lemma Sources4(i: nat)
    requires 16 <= i <= 19
    ensures Mix(Source(i)) as nat == i
  {
    assert Mix(0x5cb7e564) == 16
        && Mix(0xff2f3c9f) == 17
        && Mix(0x4cc3064c) == 18
        && Mix(0x7aa3af5e) == 19;
  }

  lemma Sources5(i: nat)
    requires 20 <= i <= 23
    ensures Mix(Source(i)) as nat == i
  {
    assert Mix(0x132f18e5) == 20
        && Mix(0x1d263814) == 21
        && Mix(0x20af32eb) == 22
        && Mix(0xddf81089) == 23;
  }

  lemma Sources6(i: nat)
    requires 24 <= i <= 27
    ensures Mix(Source(i)) as nat == i
  {
    assert Mix(0xcbc63a9) == 24
        && Mix(0xbb89ac02) == 25
        && Mix(0x6ec9d531) == 26
        && Mix(0xa7c0ca28) == 27;
  }

  lemma Sources7(i: nat)
    requires 28 <= i <= 31
    ensures Mix(Source(i)) as nat == i
  {
    assert Mix(0x5af14843) == 28
        && Mix(0xbde6d6d9) == 29
        && Mix(0xa8853b1e) == 30
        && Mix(0xec766caf) == 31;
  }

  lemma Sources8(i: nat)
    requires 32 <= i <= 33
    ensures Mix(Source(i)) as nat == i
  {
    assert Mix(0xb4725694) == 32
        && Mix(0x54623a5c) == 33;
  }

  /** Flow i of the list has hash i, so the flows are spread over 34 sets. */
  lemma SourceHash(i: nat)
    requires i < 34
    ensures KeyHash(From(Source(i))) == i
  {
    hide KeyHash, Mix, Source;
    HashSource(Source(i));
    match i / 4
    case 0 => Sources0(i);
    case 1 => Sources1(i);
    case 2 => Sources2(i);
    case 3 => Sources3(i);
    case 4 => Sources4(i);
    case 5 => Sources5(i);
    case 6 => Sources6(i);
    case 7 => Sources7(i);
    case _ => Sources8(i);
  }

  /** Another flow of the first set. */
  lemma FirstSet()
    ensures KeyHash(From(0x60c67f98)) == 128
  {
    hide KeyHash;
    assert Mix(0x60c67f98) == 128;
    HashSource(0x60c67f98);
  }
}
