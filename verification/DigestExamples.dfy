/** The digests of "abc" that RFC 1321 (section A.5) and FIPS 180 give as examples. They
    depend on every constant, rotation and byte order. The steps are written out with
    their sums and results, each of which is checked by itself. */
module DigestExamples {
  import opened Digest
  import Md5
  import Sha1

  const ABC: seq<bv8> := [0x61, 0x62, 0x63]

  // ---- MD5

  /** The words of the one block that there is: the message and the byte 0x80, and the
      length in bits. */
  function Md5Word(k: nat): bv32 { if k == 0 then 0x80636261 else if k == 14 then 24 else 0 }

  ghost predicate Md5Block(m: seq<bv8>) {
    |m| == 64 && forall k :: 0 <= k < 16 ==> Md5.X(m, k) == Md5Word(k)
  }

  /** Step i, with the sum before the rotation and the register that changes. */
  lemma Md5Step(m: seq<bv8>, i: nat, a: bv32, b: bv32, c: bv32, d: bv32, sum: bv32, places: nat, next: bv32)
    requires Md5Block(m) && i < 64 && places <= 32 && Md5.Rounds(m, Md5.H0, i) == Md5.Regs(a, b, c, d)
    requires sum == Md5.Sum4(a, Md5.F(i, b, c, d), Md5Word(Md5.Index(i)), Md5.T(i))
    requires places == Md5.Places(i) && next == Md5.Plus(Md5.Rotate(sum, places), b)
    ensures Md5.Rounds(m, Md5.H0, i + 1) == Md5.Regs(d, next, b, c)
  {
    hide Md5.Sum4, Md5.F, Md5.Places, Md5.Rotate, Md5.Plus, Md5.T, Md5.Index, Md5.X, Md5Word;
  }

  lemma Md5Steps0(m: seq<bv8>)
    requires Md5Block(m)
    ensures Md5.Rounds(m, Md5.H0, 4) == Md5.Regs(0xd6d117b4, 0x7ad956f2, 0x2f6fbd72, 0x344a8432)
  {
    hide Md5Block, Md5.Rounds;
    Md5Start(m);
    Md5Step(m, 0, 0x67452301, 0xefcdab89, 0x98badcfe, 0x10325476, 0x57ce06d8, 7, 0xd6d117b4);
    Md5Step(m, 1, 0x10325476, 0xd6d117b4, 0xefcdab89, 0x98badcfe, 0xc7e5d796, 12, 0x344a8432);
    Md5Step(m, 2, 0x98badcfe, 0x344a8432, 0xd6d117b4, 0xefcdab89, 0x9ca07d92, 17, 0x2f6fbd72);
    Md5Step(m, 3, 0xefcdab89, 0x2f6fbd72, 0x344a8432, 0xd6d117b4, 0xa666012d, 22, 0x7ad956f2);
  }

  lemma Md5Steps4(m: seq<bv8>)
    requires Md5Block(m)
    ensures Md5.Rounds(m, Md5.H0, 8) == Md5.Regs(0xc73741ef, 0x928d99f6, 0x207dc67b, 0x8bac3051)
  {
    hide Md5Block, Md5.Rounds;
    Md5Steps0(m);
    Md5Step(m, 4, 0xd6d117b4, 0x7ad956f2, 0x2f6fbd72, 0x344a8432, 0xfa98bbd5, 7, 0xc73741ef);
    Md5Step(m, 5, 0x344a8432, 0xc73741ef, 0x7ad956f2, 0x2f6fbd72, 0xe62c474e, 12, 0x8bac3051);
    Md5Step(m, 6, 0x2f6fbd72, 0x8bac3051, 0xc73741ef, 0x7ad956f2, 0xcb154a68, 17, 0x207dc67b);
    Md5Step(m, 7, 0x7ad956f2, 0x207dc67b, 0x8bac3051, 0xc73741ef, 0x3f4dedc8, 22, 0x928d99f6);
  }

  lemma Md5Steps8(m: seq<bv8>)
    requires Md5Block(m)
    ensures Md5.Rounds(m, Md5.H0, 12) == Md5.Regs(0x854b3712, 0x5ed49596, 0x3020401c, 0x74e2f284)
  {
    hide Md5Block, Md5.Rounds;
    Md5Steps4(m);
    Md5Step(m, 8, 0xc73741ef, 0x928d99f6, 0x207dc67b, 0x8bac3051, 0x39e57b3a, 7, 0x854b3712);
    Md5Step(m, 9, 0x8bac3051, 0x854b3712, 0x928d99f6, 0x207dc67b, 0xb72ef97b, 12, 0x74e2f284);
    Md5Step(m, 10, 0x207dc67b, 0x74e2f284, 0x854b3712, 0x928d99f6, 0xa6cc5d9e, 17, 0x3020401c);
    Md5Step(m, 11, 0x928d99f6, 0x3020401c, 0x74e2f284, 0x854b3712, 0xd155e8ba, 22, 0x5ed49596);
  }

  lemma Md5Steps12(m: seq<bv8>)
    requires Md5Block(m)
    ensures Md5.Rounds(m, Md5.H0, 16) == Md5.Regs(0xdda9b9a6, 0x72aff2e0, 0xe396856b, 0xa1051895)
  {
    hide Md5Block, Md5.Rounds;
    Md5Steps8(m);
    Md5Step(m, 12, 0x854b3712, 0x5ed49596, 0x3020401c, 0x74e2f284, 0x20fdaa48, 7, 0xdda9b9a6);
    Md5Step(m, 13, 0x74e2f284, 0xdda9b9a6, 0x5ed49596, 0x3020401c, 0xeefc35b5, 12, 0xa1051895);
    Md5Step(m, 14, 0x3020401c, 0xa1051895, 0xdda9b9a6, 0x5ed49596, 0xb66b2148, 17, 0xe396856b);
    Md5Step(m, 15, 0x5ed49596, 0xe396856b, 0xa1051895, 0xdda9b9a6, 0x65b5d63c, 22, 0x72aff2e0);
  }

  lemma Md5Steps16(m: seq<bv8>)
    requires Md5Block(m)
    ensures Md5.Rounds(m, Md5.H0, 20) == Md5.Regs(0x3e9e9126, 0xb5b204e4, 0xe25e1652, 0x4a1d804e)
  {
    hide Md5Block, Md5.Rounds;
    Md5Steps12(m);
    Md5Step(m, 16, 0xdda9b9a6, 0x72aff2e0, 0xe396856b, 0xa1051895, 0x365f74f2, 5, 0x3e9e9126);
    Md5Step(m, 17, 0xa1051895, 0x3e9e9126, 0x72aff2e0, 0xe396856b, 0x9405bf77, 9, 0x4a1d804e);
    Md5Step(m, 18, 0xe396856b, 0x4a1d804e, 0x3e9e9126, 0x72aff2e0, 0x58126102, 14, 0xe25e1652);
    Md5Step(m, 19, 0x72aff2e0, 0xe25e1652, 0x4a1d804e, 0x3e9e9126, 0x3ee92d35, 20, 0xb5b204e4);
  }

  lemma Md5Steps20(m: seq<bv8>)
    requires Md5Block(m)
    ensures Md5.Rounds(m, Md5.H0, 24) == Md5.Regs(0x59a8ffda, 0x47092c07, 0xabfc7920, 0x6d002f1e)
  {
    hide Md5Block, Md5.Rounds;
    Md5Steps16(m);
    Md5Step(m, 20, 0x3e9e9126, 0xb5b204e4, 0xe25e1652, 0x4a1d804e, 0xb51fb7d7, 5, 0x59a8ffda);
    Md5Step(m, 21, 0x4a1d804e, 0x59a8ffda, 0xb5b204e4, 0xe25e1652, 0xa209ab97, 9, 0x6d002f1e);
    Md5Step(m, 22, 0xe25e1652, 0x6d002f1e, 0x59a8ffda, 0xb5b204e4, 0x2808fbf1, 14, 0xabfc7920);
    Md5Step(m, 23, 0xb5b204e4, 0xabfc7920, 0x6d002f1e, 0x59a8ffda, 0xcb2e79b0, 20, 0x47092c07);
  }

  lemma Md5Steps24(m: seq<bv8>)
    requires Md5Block(m)
    ensures Md5.Rounds(m, Md5.H0, 28) == Md5.Regs(0xb7f268cf, 0x786acb8f, 0xfe1623b1, 0x09388eff)
  {
    hide Md5Block, Md5.Rounds;
    Md5Steps20(m);
    Md5Step(m, 24, 0x59a8ffda, 0x47092c07, 0xabfc7920, 0x6d002f1e, 0x438749e6, 5, 0xb7f268cf);
    Md5Step(m, 25, 0x6d002f1e, 0xb7f268cf, 0x47092c07, 0xabfc7920, 0x1828a313, 9, 0x09388eff);
    Md5Step(m, 26, 0xabfc7920, 0x09388eff, 0xb7f268cf, 0x47092c07, 0x52cbd376, 14, 0xfe1623b1);
    Md5Step(m, 27, 0x47092c07, 0xfe1623b1, 0x09388eff, 0xb7f268cf, 0x4a7de7a5, 20, 0x786acb8f);
  }

  lemma Md5Steps28(m: seq<bv8>)
    requires Md5Block(m)
    ensures Md5.Rounds(m, Md5.H0, 32) == Md5.Regs(0x790a77fb, 0x726342d3, 0xa62884aa, 0x9f47e4f8)
  {
    hide Md5Block, Md5.Rounds;
    Md5Steps24(m);
    Md5Step(m, 28, 0xb7f268cf, 0x786acb8f, 0xfe1623b1, 0x09388eff, 0x6004fd63, 5, 0x790a77fb);
    Md5Step(m, 29, 0x09388eff, 0x790a77fb, 0x786acb8f, 0xfe1623b1, 0x7e931eb6, 9, 0x9f47e4f8);
    Md5Step(m, 30, 0xfe1623b1, 0x9f47e4f8, 0x790a77fb, 0x786acb8f, 0x7ec81b82, 14, 0xa62884aa);
    Md5Step(m, 31, 0x786acb8f, 0xa62884aa, 0x9f47e4f8, 0x790a77fb, 0xabe29cc3, 20, 0x726342d3);
  }

  lemma Md5Steps32(m: seq<bv8>)
    requires Md5Block(m)
    ensures Md5.Rounds(m, Md5.H0, 36) == Md5.Regs(0xb3707ebf, 0x3b0875c7, 0x8d212ff5, 0x60127b2e)
  {
    hide Md5Block, Md5.Rounds;
    Md5Steps28(m);
    Md5Step(m, 32, 0x790a77fb, 0x726342d3, 0xa62884aa, 0x9f47e4f8, 0xc410d3be, 4, 0xb3707ebf);
    Md5Step(m, 33, 0x9f47e4f8, 0xb3707ebf, 0x726342d3, 0xa62884aa, 0x8df5943f, 11, 0x60127b2e);
    Md5Step(m, 34, 0xa62884aa, 0x60127b2e, 0xb3707ebf, 0x726342d3, 0xb4c72d0e, 16, 0x8d212ff5);
    Md5Step(m, 35, 0x726342d3, 0x8d212ff5, 0x60127b2e, 0xb3707ebf, 0xce8ba55b, 23, 0x3b0875c7);
  }

  lemma Md5Steps36(m: seq<bv8>)
    requires Md5Block(m)
    ensures Md5.Rounds(m, Md5.H0, 40) == Md5.Regs(0x21b117b9, 0x5a2f5ea5, 0x3575227e, 0x6e7429d5)
  {
    hide Md5Block, Md5.Rounds;
    Md5Steps32(m);
    Md5Step(m, 36, 0xb3707ebf, 0x3b0875c7, 0x8d212ff5, 0x60127b2e, 0x2e6a8a1f, 4, 0x21b117b9);
    Md5Step(m, 37, 0x60127b2e, 0x21b117b9, 0x3b0875c7, 0x8d212ff5, 0x43899862, 11, 0x6e7429d5);
    Md5Step(m, 38, 0x8d212ff5, 0x6e7429d5, 0x21b117b9, 0x3b0875c7, 0xf8a9c700, 16, 0x3575227e);
    Md5Step(m, 39, 0x3b0875c7, 0x3575227e, 0x6e7429d5, 0x21b117b9, 0x74784e49, 23, 0x5a2f5ea5);
  }

  lemma Md5Steps40(m: seq<bv8>)
    requires Md5Block(m)
    ensures Md5.Rounds(m, Md5.H0, 44) == Md5.Regs(0x11de1779, 0x4c6124f4, 0x31c465ca, 0xfadcaa38)
  {
    hide Md5Block, Md5.Rounds;
    Md5Steps36(m);
    Md5Step(m, 40, 0x21b117b9, 0x5a2f5ea5, 0x3575227e, 0x6e7429d5, 0x4b7aeb8d, 4, 0x11de1779);
    Md5Step(m, 41, 0x6e7429d5, 0x11de1779, 0x5a2f5ea5, 0x3575227e, 0x57fd1fd2, 11, 0xfadcaa38);
    Md5Step(m, 42, 0x3575227e, 0xfadcaa38, 0x11de1779, 0x5a2f5ea5, 0xbb9236e7, 16, 0x31c465ca);
    Md5Step(m, 43, 0x5a2f5ea5, 0x31c465ca, 0xfadcaa38, 0x11de1779, 0x397e5435, 23, 0x4c6124f4);
  }

  lemma Md5Steps44(m: seq<bv8>)
    requires Md5Block(m)
    ensures Md5.Rounds(m, Md5.H0, 48) == Md5.Regs(0x7f2e507b, 0x7beb9700, 0x8fae6399, 0x99d9679d)
  {
    hide Md5Block, Md5.Rounds;
    Md5Steps40(m);
    Md5Step(m, 44, 0x11de1779, 0x4c6124f4, 0x31c465ca, 0xfadcaa38, 0x732cd2b8, 4, 0x7f2e507b);
    Md5Step(m, 45, 0xfadcaa38, 0x7f2e507b, 0x4c6124f4, 0x31c465ca, 0xe4435562, 11, 0x99d9679d);
    Md5Step(m, 46, 0x31c465ca, 0x99d9679d, 0x7f2e507b, 0x4c6124f4, 0xfbfcf5d4, 16, 0x8fae6399);
    Md5Step(m, 47, 0x4c6124f4, 0x8fae6399, 0x99d9679d, 0x7f2e507b, 0x7a66cfd8, 23, 0x7beb9700);
  }

  lemma Md5Steps48(m: seq<bv8>)
    requires Md5Block(m)
    ensures Md5.Rounds(m, Md5.H0, 52) == Md5.Regs(0x7b201df8, 0x8bf025c4, 0xb298cefd, 0xf4e8e96e)
  {
    hide Md5Block, Md5.Rounds;
    Md5Steps44(m);
    Md5Step(m, 48, 0x7f2e507b, 0x7beb9700, 0x8fae6399, 0x99d9679d, 0xe3fcd21b, 6, 0x7b201df8);
    Md5Step(m, 49, 0x99d9679d, 0x7b201df8, 0x7beb9700, 0x8fae6399, 0xdd9e7232, 10, 0xf4e8e96e);
    Md5Step(m, 50, 0x8fae6399, 0xf4e8e96e, 0x7b201df8, 0x7beb9700, 0xcb1f7b5f, 15, 0xb298cefd);
    Md5Step(m, 51, 0x7beb9700, 0xb298cefd, 0xf4e8e96e, 0x7b201df8, 0xbab63eca, 21, 0x8bf025c4);
  }

  lemma Md5Steps52(m: seq<bv8>)
    requires Md5Block(m)
    ensures Md5.Rounds(m, Md5.H0, 56) == Md5.Regs(0x06cc5e8a, 0x3bfa2c27, 0x7d632dd0, 0x5b0d97aa)
  {
    hide Md5Block, Md5.Rounds;
    Md5Steps48(m);
    Md5Step(m, 52, 0x7b201df8, 0x8bf025c4, 0xb298cefd, 0xf4e8e96e, 0x19eb70e3, 6, 0x06cc5e8a);
    Md5Step(m, 53, 0xf4e8e96e, 0x06cc5e8a, 0x8bf025c4, 0xb298cefd, 0x4815104e, 10, 0x5b0d97aa);
    Md5Step(m, 54, 0xb298cefd, 0x5b0d97aa, 0x06cc5e8a, 0x8bf025c4, 0x2c4c44ab, 15, 0x7d632dd0);
    Md5Step(m, 55, 0x8bf025c4, 0x7d632dd0, 0x5b0d97aa, 0x06cc5e8a, 0xb7f2bdf4, 21, 0x3bfa2c27);
  }

  lemma Md5Steps56(m: seq<bv8>)
    requires Md5Block(m)
    ensures Md5.Rounds(m, Md5.H0, 60) == Md5.Regs(0x7f81cc35, 0x7327d604, 0x4f9dbe3f, 0x094454ab)
  {
    hide Md5Block, Md5.Rounds;
    Md5Steps52(m);
    Md5Step(m, 56, 0x06cc5e8a, 0x3bfa2c27, 0x7d632dd0, 0x5b0d97aa, 0x390e1e80, 6, 0x7f81cc35);
    Md5Step(m, 57, 0x5b0d97aa, 0x7f81cc35, 0x3bfa2c27, 0x7d632dd0, 0x1da270a2, 10, 0x094454ab);
    Md5Step(m, 58, 0x7d632dd0, 0x094454ab, 0x7f81cc35, 0x3bfa2c27, 0xd3288cb2, 15, 0x4f9dbe3f);
    Md5Step(m, 59, 0x3bfa2c27, 0x4f9dbe3f, 0x094454ab, 0x7f81cc35, 0x50be291c, 21, 0x7327d604);
  }

  lemma Md5Steps60(m: seq<bv8>)
    requires Md5Block(m)
    ensures Md5.Rounds(m, Md5.H0, 64) == Md5.Regs(0x310ade8f, 0xc08226b3, 0xe484b9d8, 0x624d8cb2)
  {
    hide Md5Block, Md5.Rounds;
    Md5Steps56(m);
    Md5Step(m, 60, 0x7f81cc35, 0x7327d604, 0x4f9dbe3f, 0x094454ab, 0x2ef78c22, 6, 0x310ade8f);
    Md5Step(m, 61, 0x094454ab, 0x310ade8f, 0x7327d604, 0x4f9dbe3f, 0x88cc50ab, 10, 0x624d8cb2);
    Md5Step(m, 62, 0x4f9dbe3f, 0x624d8cb2, 0x310ade8f, 0x7327d604, 0x5a4d046e, 15, 0xe484b9d8);
    Md5Step(m, 63, 0x7327d604, 0xe484b9d8, 0x624d8cb2, 0x310ade8f, 0xeb66dedf, 21, 0xc08226b3);
  }

  lemma Md5Start(m: seq<bv8>)
    requires Md5Block(m)
    ensures Md5.Rounds(m, Md5.H0, 0) == Md5.Regs(0x67452301, 0xefcdab89, 0x98badcfe, 0x10325476)
  {
  }

  lemma Md5Layout()
    ensures var m := Md5.Pad(ABC); |m| == 64 && m[0] == 0x61 && m[1] == 0x62 && m[2] == 0x63 && m[3] == 0x80 && m[56] == 24
    ensures forall k :: 4 <= k < 64 && k != 56 ==> Md5.Pad(ABC)[k] == 0
  {
    hide Md5.LengthBytes, Zeros, PadLength;
    PadIs52();
    Joined(ABC, [0x80], Zeros(52), Md5.LengthBytes(3));
    forall i | 0 <= i < 8 ensures Md5.LengthBytes(3)[i] == if i == 0 then 24 else 0 {
      Md5Length(i);
    }
  }

  lemma Md5Length(i: nat)
    requires i < 8
    ensures Md5.LengthBytes(3)[i] == if i == 0 then 24 else 0
  {
    hide BitsLow, BitsHigh, ByteAt;
    BytesOf24();
  }

  lemma BytesOf24()
    ensures BitsLow(3) == 24 && BitsHigh(3) == 0
    ensures ByteAt(24, 1) == 24 && ByteAt(24, 0x100) == ByteAt(24, 0x1_0000) == ByteAt(24, 0x100_0000) == 0
    ensures ByteAt(0, 1) == ByteAt(0, 0x100) == ByteAt(0, 0x1_0000) == ByteAt(0, 0x100_0000) == 0
  {
  }

  lemma PadIs52()
    ensures PadLength(3) == 52 && forall i :: 0 <= i < 52 ==> Zeros(52)[i] == 0
  {
  }

  /** Where the four parts of the block stand. */
  lemma Joined(a: seq<bv8>, b: seq<bv8>, c: seq<bv8>, d: seq<bv8>)
    requires |a| == 3 && |b| == 1 && |c| == 52 && |d| == 8
    ensures var m := a + b + c + d; |m| == 64 && m[0] == a[0] && m[1] == a[1] && m[2] == a[2] && m[3] == b[0]
    ensures forall k :: 4 <= k < 64 ==> (a + b + c + d)[k] == if k < 56 then c[k - 4] else d[k - 56]
  {
  }

  lemma Md5Words(m: seq<bv8>, k: nat)
    requires |m| == 64 && m[0] == 0x61 && m[1] == 0x62 && m[2] == 0x63 && m[3] == 0x80 && m[56] == 24
    requires forall k :: 4 <= k < 64 && k != 56 ==> m[k] == 0
    requires k < 16
    ensures Md5.X(m, k) == Md5Word(k)
  {
  }

  lemma Md5Padded()
    ensures Md5Block(Md5.Pad(ABC))
  {
    hide Md5.X;
    var m := Md5.Pad(ABC);
    Md5Layout();
    forall k | 0 <= k < 16 ensures Md5.X(m, k) == Md5Word(k) {
      Md5Words(m, k);
    }
  }

  /** MD5 ("abc") = 900150983cd24fb0d6963f7d28e17f72 */
  lemma Md5OfAbc()
    ensures Md5.Hash(ABC) == [0x90, 0x01, 0x50, 0x98, 0x3c, 0xd2, 0x4f, 0xb0, 0xd6, 0x96, 0x3f, 0x7d, 0x28, 0xe1, 0x7f, 0x72]
  {
    hide Md5Block, Md5.Rounds, Md5.Pad;
    var m := Md5.Pad(ABC);
    Md5Layout();
    Md5Padded();
    Md5Steps60(m);
    OneBlock(Md5.Compress, Md5.H0, m);
    Md5Ends(m);
  }

  lemma OneBlock<S>(step: (S, seq<bv8>) -> S, h: S, m: seq<bv8>)
    requires |m| == 64
    ensures Blocks(step, h, m) == step(h, m)
  {
    assert m[..64] == m && m[64..] == [];
  }

  lemma Md5Ends(m: seq<bv8>)
    requires |m| == 64 && Md5.Rounds(m, Md5.H0, 64) == Md5.Regs(0x310ade8f, 0xc08226b3, 0xe484b9d8, 0x624d8cb2)
    ensures Md5.Compress(Md5.H0, m) == Md5.Regs(0x98500190, 0xb04fd23c, 0x7d3f96d6, 0x727fe128)
  {
    hide Md5.Rounds;
  }

  // ---- SHA-1

  function ShaWord(t: nat): bv32 { if t == 0 then 0x61626380 else if t == 15 then 24 else 0 }

  ghost predicate ShaBlock(m: seq<bv8>) {
    |m| == 64 && forall t :: 0 <= t < 16 ==> Sha1.W(m, t) == ShaWord(t)
  }

  /** A word of the schedule. */
  lemma ShaMore(m: seq<bv8>, t: nat, w3: bv32, w8: bv32, w14: bv32, w16: bv32, next: bv32)
    requires |m| == 64 && t >= 16 && next == Sha1.Expand(w3, w8, w14, w16)
    requires Sha1.W(m, t - 3) == w3 && Sha1.W(m, t - 8) == w8 && Sha1.W(m, t - 14) == w14 && Sha1.W(m, t - 16) == w16
    ensures Sha1.W(m, t) == next
  {
    hide Sha1.Expand;
  }

  lemma ShaWords16(m: seq<bv8>)
    requires |m| == 64 && ShaBlock(m)
    ensures Sha1.W(m, 8) == 0x00000000 && Sha1.W(m, 9) == 0x00000000 && Sha1.W(m, 10) == 0x00000000 && Sha1.W(m, 11) == 0x00000000
    ensures Sha1.W(m, 12) == 0x00000000 && Sha1.W(m, 13) == 0x00000000 && Sha1.W(m, 14) == 0x00000000 && Sha1.W(m, 15) == 0x00000018
    ensures Sha1.W(m, 16) == 0xc2c4c700 && Sha1.W(m, 17) == 0x00000000 && Sha1.W(m, 18) == 0x00000030 && Sha1.W(m, 19) == 0x85898e01
    ensures Sha1.W(m, 20) == 0x00000000 && Sha1.W(m, 21) == 0x00000060 && Sha1.W(m, 22) == 0x0b131c03 && Sha1.W(m, 23) == 0x00000030
  {
    hide ShaBlock, Sha1.W;
    ShaFirst(m);
    ShaMore(m, 16, 0x00000000, 0x00000000, 0x00000000, 0x61626380, 0xc2c4c700);
    ShaMore(m, 17, 0x00000000, 0x00000000, 0x00000000, 0x00000000, 0x00000000);
    ShaMore(m, 18, 0x00000018, 0x00000000, 0x00000000, 0x00000000, 0x00000030);
    ShaMore(m, 19, 0xc2c4c700, 0x00000000, 0x00000000, 0x00000000, 0x85898e01);
    ShaMore(m, 20, 0x00000000, 0x00000000, 0x00000000, 0x00000000, 0x00000000);
    ShaMore(m, 21, 0x00000030, 0x00000000, 0x00000000, 0x00000000, 0x00000060);
    ShaMore(m, 22, 0x85898e01, 0x00000000, 0x00000000, 0x00000000, 0x0b131c03);
    ShaMore(m, 23, 0x00000000, 0x00000018, 0x00000000, 0x00000000, 0x00000030);
  }

  lemma ShaWords24(m: seq<bv8>)
    requires |m| == 64 && ShaBlock(m)
    ensures Sha1.W(m, 16) == 0xc2c4c700 && Sha1.W(m, 17) == 0x00000000 && Sha1.W(m, 18) == 0x00000030 && Sha1.W(m, 19) == 0x85898e01
    ensures Sha1.W(m, 20) == 0x00000000 && Sha1.W(m, 21) == 0x00000060 && Sha1.W(m, 22) == 0x0b131c03 && Sha1.W(m, 23) == 0x00000030
    ensures Sha1.W(m, 24) == 0x85898ec1 && Sha1.W(m, 25) == 0x16263806 && Sha1.W(m, 26) == 0x00000000 && Sha1.W(m, 27) == 0x00000180
    ensures Sha1.W(m, 28) == 0x2c4c700c && Sha1.W(m, 29) == 0x000000f0 && Sha1.W(m, 30) == 0x93afb507 && Sha1.W(m, 31) == 0x5898e048
  {
    hide ShaBlock, Sha1.W;
    ShaWords16(m);
    ShaMore(m, 24, 0x00000060, 0xc2c4c700, 0x00000000, 0x00000000, 0x85898ec1);
    ShaMore(m, 25, 0x0b131c03, 0x00000000, 0x00000000, 0x00000000, 0x16263806);
    ShaMore(m, 26, 0x00000030, 0x00000030, 0x00000000, 0x00000000, 0x00000000);
    ShaMore(m, 27, 0x85898ec1, 0x85898e01, 0x00000000, 0x00000000, 0x00000180);
    ShaMore(m, 28, 0x16263806, 0x00000000, 0x00000000, 0x00000000, 0x2c4c700c);
    ShaMore(m, 29, 0x00000000, 0x00000060, 0x00000018, 0x00000000, 0x000000f0);
    ShaMore(m, 30, 0x00000180, 0x0b131c03, 0xc2c4c700, 0x00000000, 0x93afb507);
    ShaMore(m, 31, 0x2c4c700c, 0x00000030, 0x00000000, 0x00000018, 0x5898e048);
  }

  lemma ShaWords32(m: seq<bv8>)
    requires |m| == 64 && ShaBlock(m)
    ensures Sha1.W(m, 24) == 0x85898ec1 && Sha1.W(m, 25) == 0x16263806 && Sha1.W(m, 26) == 0x00000000 && Sha1.W(m, 27) == 0x00000180
    ensures Sha1.W(m, 28) == 0x2c4c700c && Sha1.W(m, 29) == 0x000000f0 && Sha1.W(m, 30) == 0x93afb507 && Sha1.W(m, 31) == 0x5898e048
    ensures Sha1.W(m, 32) == 0x8e9a9202 && Sha1.W(m, 33) == 0x00000600 && Sha1.W(m, 34) == 0xb131c0f0 && Sha1.W(m, 35) == 0x16263bc6
    ensures Sha1.W(m, 36) == 0x4ebed41e && Sha1.W(m, 37) == 0x626380a1 && Sha1.W(m, 38) == 0x16263806 && Sha1.W(m, 39) == 0x000018c0
  {
    hide ShaBlock, Sha1.W;
    ShaWords24(m);
    ShaMore(m, 32, 0x000000f0, 0x85898ec1, 0x00000030, 0xc2c4c700, 0x8e9a9202);
    ShaMore(m, 33, 0x93afb507, 0x16263806, 0x85898e01, 0x00000000, 0x00000600);
    ShaMore(m, 34, 0x5898e048, 0x00000000, 0x00000000, 0x00000030, 0xb131c0f0);
    ShaMore(m, 35, 0x8e9a9202, 0x00000180, 0x00000060, 0x85898e01, 0x16263bc6);
    ShaMore(m, 36, 0x00000600, 0x2c4c700c, 0x0b131c03, 0x00000000, 0x4ebed41e);
    ShaMore(m, 37, 0xb131c0f0, 0x000000f0, 0x00000030, 0x00000060, 0x626380a1);
    ShaMore(m, 38, 0x16263bc6, 0x93afb507, 0x85898ec1, 0x0b131c03, 0x16263806);
    ShaMore(m, 39, 0x4ebed41e, 0x5898e048, 0x16263806, 0x00000030, 0x000018c0);
  }

  lemma ShaWords40(m: seq<bv8>)
    requires |m| == 64 && ShaBlock(m)
    ensures Sha1.W(m, 32) == 0x8e9a9202 && Sha1.W(m, 33) == 0x00000600 && Sha1.W(m, 34) == 0xb131c0f0 && Sha1.W(m, 35) == 0x16263bc6
    ensures Sha1.W(m, 36) == 0x4ebed41e && Sha1.W(m, 37) == 0x626380a1 && Sha1.W(m, 38) == 0x16263806 && Sha1.W(m, 39) == 0x000018c0
    ensures Sha1.W(m, 40) == 0xd2e138c4 && Sha1.W(m, 41) == 0x00000f00 && Sha1.W(m, 42) == 0x3afb5079 && Sha1.W(m, 43) == 0x898e04e5
    ensures Sha1.W(m, 44) == 0xe2ba3c2b && Sha1.W(m, 45) == 0x000060c0 && Sha1.W(m, 46) == 0x053a37cd && Sha1.W(m, 47) == 0x74458547
  {
    hide ShaBlock, Sha1.W;
    ShaWords32(m);
    ShaMore(m, 40, 0x626380a1, 0x8e9a9202, 0x00000000, 0x85898ec1, 0xd2e138c4);
    ShaMore(m, 41, 0x16263806, 0x00000600, 0x00000180, 0x16263806, 0x00000f00);
    ShaMore(m, 42, 0x000018c0, 0xb131c0f0, 0x2c4c700c, 0x00000000, 0x3afb5079);
    ShaMore(m, 43, 0xd2e138c4, 0x16263bc6, 0x000000f0, 0x00000180, 0x898e04e5);
    ShaMore(m, 44, 0x00000f00, 0x4ebed41e, 0x93afb507, 0x2c4c700c, 0xe2ba3c2b);
    ShaMore(m, 45, 0x3afb5079, 0x626380a1, 0x5898e048, 0x000000f0, 0x000060c0);
    ShaMore(m, 46, 0x898e04e5, 0x16263806, 0x8e9a9202, 0x93afb507, 0x053a37cd);
    ShaMore(m, 47, 0xe2ba3c2b, 0x000018c0, 0x00000600, 0x5898e048, 0x74458547);
  }

  lemma ShaWords48(m: seq<bv8>)
    requires |m| == 64 && ShaBlock(m)
    ensures Sha1.W(m, 40) == 0xd2e138c4 && Sha1.W(m, 41) == 0x00000f00 && Sha1.W(m, 42) == 0x3afb5079 && Sha1.W(m, 43) == 0x898e04e5
    ensures Sha1.W(m, 44) == 0xe2ba3c2b && Sha1.W(m, 45) == 0x000060c0 && Sha1.W(m, 46) == 0x053a37cd && Sha1.W(m, 47) == 0x74458547
    ensures Sha1.W(m, 48) == 0xda9415ed && Sha1.W(m, 49) == 0x26380a16 && Sha1.W(m, 50) == 0x626383a1 && Sha1.W(m, 51) == 0x4ebf54de
    ensures Sha1.W(m, 52) == 0x3835b44b && Sha1.W(m, 53) == 0x0000f600 && Sha1.W(m, 54) == 0x1e84c7a3 && Sha1.W(m, 55) == 0x98e04d98
  {
    hide ShaBlock, Sha1.W;
    ShaWords40(m);
    ShaMore(m, 48, 0x000060c0, 0xd2e138c4, 0xb131c0f0, 0x8e9a9202, 0xda9415ed);
    ShaMore(m, 49, 0x053a37cd, 0x00000f00, 0x16263bc6, 0x00000600, 0x26380a16);
    ShaMore(m, 50, 0x74458547, 0x3afb5079, 0x4ebed41e, 0xb131c0f0, 0x626383a1);
    ShaMore(m, 51, 0xda9415ed, 0x898e04e5, 0x626380a1, 0x16263bc6, 0x4ebf54de);
    ShaMore(m, 52, 0x26380a16, 0xe2ba3c2b, 0x16263806, 0x4ebed41e, 0x3835b44b);
    ShaMore(m, 53, 0x626383a1, 0x000060c0, 0x000018c0, 0x626380a1, 0x0000f600);
    ShaMore(m, 54, 0x4ebf54de, 0x053a37cd, 0xd2e138c4, 0x16263806, 0x1e84c7a3);
    ShaMore(m, 55, 0x3835b44b, 0x74458547, 0x00000f00, 0x000018c0, 0x98e04d98);
  }

  lemma ShaWords56(m: seq<bv8>)
    requires |m| == 64 && ShaBlock(m)
    ensures Sha1.W(m, 48) == 0xda9415ed && Sha1.W(m, 49) == 0x26380a16 && Sha1.W(m, 50) == 0x626383a1 && Sha1.W(m, 51) == 0x4ebf54de
    ensures Sha1.W(m, 52) == 0x3835b44b && Sha1.W(m, 53) == 0x0000f600 && Sha1.W(m, 54) == 0x1e84c7a3 && Sha1.W(m, 55) == 0x98e04d98
    ensures Sha1.W(m, 56) == 0x651d16a0 && Sha1.W(m, 57) == 0x62658ca1 && Sha1.W(m, 58) == 0x458544d6 && Sha1.W(m, 59) == 0x44584cb7
    ensures Sha1.W(m, 60) == 0x7ba06619 && Sha1.W(m, 61) == 0x6380aea2 && Sha1.W(m, 62) == 0x0ae55269 && Sha1.W(m, 63) == 0x627b49a1
  {
    hide ShaBlock, Sha1.W;
    ShaWords48(m);
    ShaMore(m, 56, 0x0000f600, 0xda9415ed, 0x3afb5079, 0xd2e138c4, 0x651d16a0);
    ShaMore(m, 57, 0x1e84c7a3, 0x26380a16, 0x898e04e5, 0x00000f00, 0x62658ca1);
    ShaMore(m, 58, 0x98e04d98, 0x626383a1, 0xe2ba3c2b, 0x3afb5079, 0x458544d6);
    ShaMore(m, 59, 0x651d16a0, 0x4ebf54de, 0x000060c0, 0x898e04e5, 0x44584cb7);
    ShaMore(m, 60, 0x62658ca1, 0x3835b44b, 0x053a37cd, 0xe2ba3c2b, 0x7ba06619);
    ShaMore(m, 61, 0x458544d6, 0x0000f600, 0x74458547, 0x000060c0, 0x6380aea2);
    ShaMore(m, 62, 0x44584cb7, 0x1e84c7a3, 0xda9415ed, 0x053a37cd, 0x0ae55269);
    ShaMore(m, 63, 0x7ba06619, 0x98e04d98, 0x26380a16, 0x74458547, 0x627b49a1);
  }

  lemma ShaWords64(m: seq<bv8>)
    requires |m| == 64 && ShaBlock(m)
    ensures Sha1.W(m, 56) == 0x651d16a0 && Sha1.W(m, 57) == 0x62658ca1 && Sha1.W(m, 58) == 0x458544d6 && Sha1.W(m, 59) == 0x44584cb7
    ensures Sha1.W(m, 60) == 0x7ba06619 && Sha1.W(m, 61) == 0x6380aea2 && Sha1.W(m, 62) == 0x0ae55269 && Sha1.W(m, 63) == 0x627b49a1
    ensures Sha1.W(m, 64) == 0x7cd45c9d && Sha1.W(m, 65) == 0x000f0000 && Sha1.W(m, 66) == 0xfb50753a && Sha1.W(m, 67) == 0xec6765e8
    ensures Sha1.W(m, 68) == 0xba3c2be2 && Sha1.W(m, 69) == 0x0060c000 && Sha1.W(m, 70) == 0x3a37cd05 && Sha1.W(m, 71) == 0x458546f4
  {
    hide ShaBlock, Sha1.W;
    ShaWords56(m);
    ShaMore(m, 64, 0x6380aea2, 0x651d16a0, 0x626383a1, 0xda9415ed, 0x7cd45c9d);
    ShaMore(m, 65, 0x0ae55269, 0x62658ca1, 0x4ebf54de, 0x26380a16, 0x000f0000);
    ShaMore(m, 66, 0x627b49a1, 0x458544d6, 0x3835b44b, 0x626383a1, 0xfb50753a);
    ShaMore(m, 67, 0x7cd45c9d, 0x44584cb7, 0x0000f600, 0x4ebf54de, 0xec6765e8);
    ShaMore(m, 68, 0x000f0000, 0x7ba06619, 0x1e84c7a3, 0x3835b44b, 0xba3c2be2);
    ShaMore(m, 69, 0xfb50753a, 0x6380aea2, 0x98e04d98, 0x0000f600, 0x0060c000);
    ShaMore(m, 70, 0xec6765e8, 0x0ae55269, 0x651d16a0, 0x1e84c7a3, 0x3a37cd05);
    ShaMore(m, 71, 0xba3c2be2, 0x627b49a1, 0x62658ca1, 0x98e04d98, 0x458546f4);
  }

  lemma ShaWords72(m: seq<bv8>)
    requires |m| == 64 && ShaBlock(m)
    ensures Sha1.W(m, 64) == 0x7cd45c9d && Sha1.W(m, 65) == 0x000f0000 && Sha1.W(m, 66) == 0xfb50753a && Sha1.W(m, 67) == 0xec6765e8
    ensures Sha1.W(m, 68) == 0xba3c2be2 && Sha1.W(m, 69) == 0x0060c000 && Sha1.W(m, 70) == 0x3a37cd05 && Sha1.W(m, 71) == 0x458546f4
    ensures Sha1.W(m, 72) == 0xb8599dd6 && Sha1.W(m, 73) == 0x380a1a26 && Sha1.W(m, 74) == 0x01e02203 && Sha1.W(m, 75) == 0xe7cc3456
    ensures Sha1.W(m, 76) == 0xe6e60b69 && Sha1.W(m, 77) == 0x00f60a00 && Sha1.W(m, 78) == 0x5795ef4f && Sha1.W(m, 79) == 0x822e0879
  {
    hide ShaBlock, Sha1.W;
    ShaWords64(m);
    ShaMore(m, 72, 0x0060c000, 0x7cd45c9d, 0x458544d6, 0x651d16a0, 0xb8599dd6);
    ShaMore(m, 73, 0x3a37cd05, 0x000f0000, 0x44584cb7, 0x62658ca1, 0x380a1a26);
    ShaMore(m, 74, 0x458546f4, 0xfb50753a, 0x7ba06619, 0x458544d6, 0x01e02203);
    ShaMore(m, 75, 0xb8599dd6, 0xec6765e8, 0x6380aea2, 0x44584cb7, 0xe7cc3456);
    ShaMore(m, 76, 0x380a1a26, 0xba3c2be2, 0x0ae55269, 0x7ba06619, 0xe6e60b69);
    ShaMore(m, 77, 0x01e02203, 0x0060c000, 0x627b49a1, 0x6380aea2, 0x00f60a00);
    ShaMore(m, 78, 0xe7cc3456, 0x3a37cd05, 0x7cd45c9d, 0x0ae55269, 0x5795ef4f);
    ShaMore(m, 79, 0xe6e60b69, 0x458546f4, 0x000f0000, 0x627b49a1, 0x822e0879);
  }

  lemma ShaFirst(m: seq<bv8>)
    requires |m| == 64 && ShaBlock(m)
    ensures Sha1.W(m, 0) == 0x61626380 && Sha1.W(m, 1) == 0x00000000 && Sha1.W(m, 2) == 0x00000000 && Sha1.W(m, 3) == 0x00000000
    ensures Sha1.W(m, 4) == 0x00000000 && Sha1.W(m, 5) == 0x00000000 && Sha1.W(m, 6) == 0x00000000 && Sha1.W(m, 7) == 0x00000000
    ensures Sha1.W(m, 8) == 0x00000000 && Sha1.W(m, 9) == 0x00000000 && Sha1.W(m, 10) == 0x00000000 && Sha1.W(m, 11) == 0x00000000
    ensures Sha1.W(m, 12) == 0x00000000 && Sha1.W(m, 13) == 0x00000000 && Sha1.W(m, 14) == 0x00000000 && Sha1.W(m, 15) == 0x00000018
  {
    hide Sha1.W;
  }

  lemma ShaStep(m: seq<bv8>, t: nat, a: bv32, b: bv32, c: bv32, d: bv32, e: bv32, word: bv32, first: bv32, third: bv32)
    requires |m| == 64 && Sha1.Rounds(m, Sha1.H0, t) == Sha1.Regs(a, b, c, d, e) && Sha1.W(m, t) == word
    requires first == Sha1.Sum5(Sha1.Rol5(a), Sha1.F(t, b, c, d), e, Sha1.K(t), word) && third == Sha1.Rol30(b)
    ensures Sha1.Rounds(m, Sha1.H0, t + 1) == Sha1.Regs(first, a, third, c, d)
  {
    hide Sha1.W, Sha1.Rol5, Sha1.Rol30, Sha1.F, Sha1.K, Sha1.Sum5;
  }

  lemma ShaSteps0(m: seq<bv8>)
    requires |m| == 64 && ShaBlock(m)
    ensures Sha1.Rounds(m, Sha1.H0, 5) == Sha1.Regs(0xcfd499de, 0xcdd8e11b, 0x284e43c2, 0x626414db, 0xc045bf0c)
  {
    hide ShaBlock, Sha1.Rounds, Sha1.W;
    ShaFirst(m);
    ShaStart(m);
    ShaStep(m, 0, 0x67452301, 0xefcdab89, 0x98badcfe, 0x10325476, 0xc3d2e1f0, 0x61626380, 0x0116fc33, 0x7bf36ae2);
    ShaStep(m, 1, 0x0116fc33, 0x67452301, 0x7bf36ae2, 0x98badcfe, 0x10325476, 0x00000000, 0x8990536d, 0x59d148c0);
    ShaStep(m, 2, 0x8990536d, 0x0116fc33, 0x59d148c0, 0x7bf36ae2, 0x98badcfe, 0x00000000, 0xa1390f08, 0xc045bf0c);
    ShaStep(m, 3, 0xa1390f08, 0x8990536d, 0xc045bf0c, 0x59d148c0, 0x7bf36ae2, 0x00000000, 0xcdd8e11b, 0x626414db);
    ShaStep(m, 4, 0xcdd8e11b, 0xa1390f08, 0x626414db, 0xc045bf0c, 0x59d148c0, 0x00000000, 0xcfd499de, 0x284e43c2);
  }

  lemma ShaSteps5(m: seq<bv8>)
    requires |m| == 64 && ShaBlock(m)
    ensures Sha1.Rounds(m, Sha1.H0, 10) == Sha1.Regs(0x8351f929, 0x4b6ae328, 0x27a301f5, 0x664f8c30, 0x0ff1f290)
  {
    hide ShaBlock, Sha1.Rounds, Sha1.W;
    ShaFirst(m);
    ShaSteps0(m);
    ShaStep(m, 5, 0xcfd499de, 0xcdd8e11b, 0x284e43c2, 0x626414db, 0xc045bf0c, 0x00000000, 0x3fc7ca40, 0xf3763846);
    ShaStep(m, 6, 0x3fc7ca40, 0xcfd499de, 0xf3763846, 0x284e43c2, 0x626414db, 0x00000000, 0x993e30c1, 0xb3f52677);
    ShaStep(m, 7, 0x993e30c1, 0x3fc7ca40, 0xb3f52677, 0xf3763846, 0x284e43c2, 0x00000000, 0x9e8c07d4, 0x0ff1f290);
    ShaStep(m, 8, 0x9e8c07d4, 0x993e30c1, 0x0ff1f290, 0xb3f52677, 0xf3763846, 0x00000000, 0x4b6ae328, 0x664f8c30);
    ShaStep(m, 9, 0x4b6ae328, 0x9e8c07d4, 0x664f8c30, 0x0ff1f290, 0xb3f52677, 0x00000000, 0x8351f929, 0x27a301f5);
  }

  lemma ShaSteps10(m: seq<bv8>)
    requires |m| == 64 && ShaBlock(m)
    ensures Sha1.Rounds(m, Sha1.H0, 15) == Sha1.Regs(0x196bee77, 0x9128f695, 0x1181ed99, 0x18c623f9, 0x7ef6a7a2)
  {
    hide ShaBlock, Sha1.Rounds, Sha1.W;
    ShaFirst(m);
    ShaSteps5(m);
    ShaStep(m, 10, 0x8351f929, 0x4b6ae328, 0x27a301f5, 0x664f8c30, 0x0ff1f290, 0x00000000, 0xfbda9e89, 0x12dab8ca);
    ShaStep(m, 11, 0xfbda9e89, 0x8351f929, 0x12dab8ca, 0x27a301f5, 0x664f8c30, 0x00000000, 0x63188fe4, 0x60d47e4a);
    ShaStep(m, 12, 0x63188fe4, 0xfbda9e89, 0x60d47e4a, 0x12dab8ca, 0x27a301f5, 0x00000000, 0x4607b664, 0x7ef6a7a2);
    ShaStep(m, 13, 0x4607b664, 0x63188fe4, 0x7ef6a7a2, 0x60d47e4a, 0x12dab8ca, 0x00000000, 0x9128f695, 0x18c623f9);
    ShaStep(m, 14, 0x9128f695, 0x4607b664, 0x18c623f9, 0x7ef6a7a2, 0x60d47e4a, 0x00000000, 0x196bee77, 0x1181ed99);
  }

  lemma ShaSteps15(m: seq<bv8>)
    requires |m| == 64 && ShaBlock(m)
    ensures Sha1.Rounds(m, Sha1.H0, 20) == Sha1.Regs(0xfd9e1d7d, 0xdc64901d, 0x20aa99ca, 0xd3a49608, 0xc82f758b)
  {
    hide ShaBlock, Sha1.Rounds, Sha1.W;
    ShaWords16(m);
    ShaSteps10(m);
    ShaStep(m, 15, 0x196bee77, 0x9128f695, 0x1181ed99, 0x18c623f9, 0x7ef6a7a2, 0x00000018, 0x20bdd62f, 0x644a3da5);
    ShaStep(m, 16, 0x20bdd62f, 0x196bee77, 0x644a3da5, 0x1181ed99, 0x18c623f9, 0xc2c4c700, 0x4e925823, 0xc65afb9d);
    ShaStep(m, 17, 0x4e925823, 0x20bdd62f, 0xc65afb9d, 0x644a3da5, 0x1181ed99, 0x00000000, 0x82aa6728, 0xc82f758b);
    ShaStep(m, 18, 0x82aa6728, 0x4e925823, 0xc82f758b, 0xc65afb9d, 0x644a3da5, 0x00000030, 0xdc64901d, 0xd3a49608);
    ShaStep(m, 19, 0xdc64901d, 0x82aa6728, 0xd3a49608, 0xc82f758b, 0xc65afb9d, 0x85898e01, 0xfd9e1d7d, 0x20aa99ca);
  }

  lemma ShaSteps20(m: seq<bv8>)
    requires |m| == 64 && ShaBlock(m)
    ensures Sha1.Rounds(m, Sha1.H0, 25) == Sha1.Regs(0xc7567dc6, 0xd541f12d, 0x884a0d21, 0x0ce88eff, 0x868dec32)
  {
    hide ShaBlock, Sha1.Rounds, Sha1.W;
    ShaWords24(m);
    ShaSteps15(m);
    ShaStep(m, 20, 0xfd9e1d7d, 0xdc64901d, 0x20aa99ca, 0xd3a49608, 0xc82f758b, 0x00000000, 0x1a37b0ca, 0x77192407);
    ShaStep(m, 21, 0x1a37b0ca, 0xfd9e1d7d, 0x77192407, 0x20aa99ca, 0xd3a49608, 0x00000060, 0x33a23bfc, 0x7f67875f);
    ShaStep(m, 22, 0x33a23bfc, 0x1a37b0ca, 0x7f67875f, 0x77192407, 0x20aa99ca, 0x0b131c03, 0x21283486, 0x868dec32);
    ShaStep(m, 23, 0x21283486, 0x33a23bfc, 0x868dec32, 0x7f67875f, 0x77192407, 0x00000030, 0xd541f12d, 0x0ce88eff);
    ShaStep(m, 24, 0xd541f12d, 0x21283486, 0x0ce88eff, 0x868dec32, 0x7f67875f, 0x85898ec1, 0xc7567dc6, 0x884a0d21);
  }

  lemma ShaSteps25(m: seq<bv8>)
    requires |m| == 64 && ShaBlock(m)
    ensures Sha1.Rounds(m, Sha1.H0, 30) == Sha1.Regs(0xc5fbaf5d, 0x8370b52e, 0xd2aa1365, 0x6f8d7ef5, 0x12104ee9)
  {
    hide ShaBlock, Sha1.Rounds, Sha1.W;
    ShaWords24(m);
    ShaSteps20(m);
    ShaStep(m, 25, 0xc7567dc6, 0xd541f12d, 0x884a0d21, 0x0ce88eff, 0x868dec32, 0x16263806, 0x48413ba4, 0x75507c4b);
    ShaStep(m, 26, 0x48413ba4, 0xc7567dc6, 0x75507c4b, 0x884a0d21, 0x0ce88eff, 0x00000000, 0xbe35fbd5, 0xb1d59f71);
    ShaStep(m, 27, 0xbe35fbd5, 0x48413ba4, 0xb1d59f71, 0x75507c4b, 0x884a0d21, 0x00000180, 0x4aa84d97, 0x12104ee9);
    ShaStep(m, 28, 0x4aa84d97, 0xbe35fbd5, 0x12104ee9, 0xb1d59f71, 0x75507c4b, 0x2c4c700c, 0x8370b52e, 0x6f8d7ef5);
    ShaStep(m, 29, 0x8370b52e, 0x4aa84d97, 0x6f8d7ef5, 0x12104ee9, 0xb1d59f71, 0x000000f0, 0xc5fbaf5d, 0xd2aa1365);
  }

  lemma ShaSteps30(m: seq<bv8>)
    requires |m| == 64 && ShaBlock(m)
    ensures Sha1.Rounds(m, Sha1.H0, 35) == Sha1.Regs(0x21796ad4, 0x2c0ebc11, 0x811bea82, 0xcee1174c, 0xc499ed01)
  {
    hide ShaBlock, Sha1.Rounds, Sha1.W;
    ShaWords32(m);
    ShaSteps25(m);
    ShaStep(m, 30, 0xc5fbaf5d, 0x8370b52e, 0xd2aa1365, 0x6f8d7ef5, 0x12104ee9, 0x93afb507, 0x1267b407, 0xa0dc2d4b);
    ShaStep(m, 31, 0x1267b407, 0xc5fbaf5d, 0xa0dc2d4b, 0xd2aa1365, 0x6f8d7ef5, 0x5898e048, 0x3b845d33, 0x717eebd7);
    ShaStep(m, 32, 0x3b845d33, 0x1267b407, 0x717eebd7, 0xa0dc2d4b, 0xd2aa1365, 0x8e9a9202, 0x046faa0a, 0xc499ed01);
    ShaStep(m, 33, 0x046faa0a, 0x3b845d33, 0xc499ed01, 0x717eebd7, 0xa0dc2d4b, 0x00000600, 0x2c0ebc11, 0xcee1174c);
    ShaStep(m, 34, 0x2c0ebc11, 0x046faa0a, 0xcee1174c, 0xc499ed01, 0x717eebd7, 0xb131c0f0, 0x21796ad4, 0x811bea82);
  }

  lemma ShaSteps35(m: seq<bv8>)
    requires |m| == 64 && ShaBlock(m)
    ensures Sha1.Rounds(m, Sha1.H0, 40) == Sha1.Regs(0x32de1cba, 0x4c986405, 0xf718e5cf, 0x03d447f6, 0xf72eec32)
  {
    hide ShaBlock, Sha1.Rounds, Sha1.W;
    ShaWords32(m);
    ShaSteps30(m);
    ShaStep(m, 35, 0x21796ad4, 0x2c0ebc11, 0x811bea82, 0xcee1174c, 0xc499ed01, 0x16263bc6, 0xdcbbb0cb, 0x4b03af04);
    ShaStep(m, 36, 0xdcbbb0cb, 0x21796ad4, 0x4b03af04, 0x811bea82, 0xcee1174c, 0x4ebed41e, 0x0f511fd8, 0x085e5ab5);
    ShaStep(m, 37, 0x0f511fd8, 0xdcbbb0cb, 0x085e5ab5, 0x4b03af04, 0x811bea82, 0x626380a1, 0xdc63973f, 0xf72eec32);
    ShaStep(m, 38, 0xdc63973f, 0x0f511fd8, 0xf72eec32, 0x085e5ab5, 0x4b03af04, 0x16263806, 0x4c986405, 0x03d447f6);
    ShaStep(m, 39, 0x4c986405, 0xdc63973f, 0x03d447f6, 0xf72eec32, 0x085e5ab5, 0x000018c0, 0x32de1cba, 0xf718e5cf);
  }

  lemma ShaSteps40(m: seq<bv8>)
    requires |m| == 64 && ShaBlock(m)
    ensures Sha1.Rounds(m, Sha1.H0, 45) == Sha1.Regs(0x40f28e09, 0xee1b1aaf, 0x5fc64f71, 0x25c28357, 0xff21f7b7)
  {
    hide ShaBlock, Sha1.Rounds, Sha1.W;
    ShaWords40(m);
    ShaSteps35(m);
    ShaStep(m, 40, 0x32de1cba, 0x4c986405, 0xf718e5cf, 0x03d447f6, 0xf72eec32, 0xd2e138c4, 0xfc87dedf, 0x53261901);
    ShaStep(m, 41, 0xfc87dedf, 0x32de1cba, 0x53261901, 0xf718e5cf, 0x03d447f6, 0x00000f00, 0x970a0d5c, 0x8cb7872e);
    ShaStep(m, 42, 0x970a0d5c, 0xfc87dedf, 0x8cb7872e, 0x53261901, 0xf718e5cf, 0x3afb5079, 0x7f193dc5, 0xff21f7b7);
    ShaStep(m, 43, 0x7f193dc5, 0x970a0d5c, 0xff21f7b7, 0x8cb7872e, 0x53261901, 0x898e04e5, 0xee1b1aaf, 0x25c28357);
    ShaStep(m, 44, 0xee1b1aaf, 0x7f193dc5, 0x25c28357, 0xff21f7b7, 0x8cb7872e, 0xe2ba3c2b, 0x40f28e09, 0x5fc64f71);
  }

  lemma ShaSteps45(m: seq<bv8>)
    requires |m| == 64 && ShaBlock(m)
    ensures Sha1.Rounds(m, Sha1.H0, 50) == Sha1.Regs(0x120731c5, 0xbaf39337, 0xafab40b2, 0x2806e11b, 0x8714787c)
  {
    hide ShaBlock, Sha1.Rounds, Sha1.W;
    ShaWords48(m);
    ShaSteps40(m);
    ShaStep(m, 45, 0x40f28e09, 0xee1b1aaf, 0x5fc64f71, 0x25c28357, 0xff21f7b7, 0x000060c0, 0x1c51e1f2, 0xfb86c6ab);
    ShaStep(m, 46, 0x1c51e1f2, 0x40f28e09, 0xfb86c6ab, 0x5fc64f71, 0x25c28357, 0x053a37cd, 0xa01b846c, 0x503ca382);
    ShaStep(m, 47, 0xa01b846c, 0x1c51e1f2, 0x503ca382, 0xfb86c6ab, 0x5fc64f71, 0x74458547, 0xbead02ca, 0x8714787c);
    ShaStep(m, 48, 0xbead02ca, 0xa01b846c, 0x8714787c, 0x503ca382, 0xfb86c6ab, 0xda9415ed, 0xbaf39337, 0x2806e11b);
    ShaStep(m, 49, 0xbaf39337, 0xbead02ca, 0x2806e11b, 0x8714787c, 0x503ca382, 0x26380a16, 0x120731c5, 0xafab40b2);
  }

  lemma ShaSteps50(m: seq<bv8>)
    requires |m| == 64 && ShaBlock(m)
    ensures Sha1.Rounds(m, Sha1.H0, 55) == Sha1.Regs(0x7b71f76d, 0x27e9f1d8, 0x792410db, 0x8e11eb59, 0x99076cb3)
  {
    hide ShaBlock, Sha1.Rounds, Sha1.W;
    ShaWords48(m);
    ShaSteps45(m);
    ShaStep(m, 50, 0x120731c5, 0xbaf39337, 0xafab40b2, 0x2806e11b, 0x8714787c, 0x626383a1, 0x641db2ce, 0xeebce4cd);
    ShaStep(m, 51, 0x641db2ce, 0x120731c5, 0xeebce4cd, 0xafab40b2, 0x2806e11b, 0x4ebf54de, 0x3847ad66, 0x4481cc71);
    ShaStep(m, 52, 0x3847ad66, 0x641db2ce, 0x4481cc71, 0xeebce4cd, 0xafab40b2, 0x3835b44b, 0xe490436d, 0x99076cb3);
    ShaStep(m, 53, 0xe490436d, 0x3847ad66, 0x99076cb3, 0x4481cc71, 0xeebce4cd, 0x0000f600, 0x27e9f1d8, 0x8e11eb59);
    ShaStep(m, 54, 0x27e9f1d8, 0xe490436d, 0x8e11eb59, 0x99076cb3, 0x4481cc71, 0x1e84c7a3, 0x7b71f76d, 0x792410db);
  }

  lemma ShaSteps55(m: seq<bv8>)
    requires |m| == 64 && ShaBlock(m)
    ensures Sha1.Rounds(m, Sha1.H0, 60) == Sha1.Regs(0x3f52de5a, 0x09d785fd, 0x3498bfd4, 0xf211824f, 0xd79915ab)
  {
    hide ShaBlock, Sha1.Rounds, Sha1.W;
    ShaWords56(m);
    ShaSteps50(m);
    ShaStep(m, 55, 0x7b71f76d, 0x27e9f1d8, 0x792410db, 0x8e11eb59, 0x99076cb3, 0x98e04d98, 0x5e6456af, 0x09fa7c76);
    ShaStep(m, 56, 0x5e6456af, 0x7b71f76d, 0x09fa7c76, 0x792410db, 0x8e11eb59, 0x651d16a0, 0xc846093f, 0x5edc7ddb);
    ShaStep(m, 57, 0xc846093f, 0x5e6456af, 0x5edc7ddb, 0x09fa7c76, 0x792410db, 0x62658ca1, 0xd262ff50, 0xd79915ab);
    ShaStep(m, 58, 0xd262ff50, 0xc846093f, 0xd79915ab, 0x5edc7ddb, 0x09fa7c76, 0x458544d6, 0x09d785fd, 0xf211824f);
    ShaStep(m, 59, 0x09d785fd, 0xd262ff50, 0xf211824f, 0xd79915ab, 0x5edc7ddb, 0x44584cb7, 0x3f52de5a, 0x3498bfd4);
  }

  lemma ShaSteps60(m: seq<bv8>)
    requires |m| == 64 && ShaBlock(m)
    ensures Sha1.Rounds(m, Sha1.H0, 65) == Sha1.Regs(0x19dfa7ac, 0x6b61c9e1, 0xed9b0082, 0x9523272c, 0xf5d5b051)
  {
    hide ShaBlock, Sha1.Rounds, Sha1.W;
    ShaWords64(m);
    ShaSteps55(m);
    ShaStep(m, 60, 0x3f52de5a, 0x09d785fd, 0x3498bfd4, 0xf211824f, 0xd79915ab, 0x7ba06619, 0xd756c147, 0x4275e17f);
    ShaStep(m, 61, 0xd756c147, 0x3f52de5a, 0x4275e17f, 0x3498bfd4, 0xf211824f, 0x6380aea2, 0x548c9cb2, 0x8fd4b796);
    ShaStep(m, 62, 0x548c9cb2, 0xd756c147, 0x8fd4b796, 0x4275e17f, 0x3498bfd4, 0x0ae55269, 0xb66c020b, 0xf5d5b051);
    ShaStep(m, 63, 0xb66c020b, 0x548c9cb2, 0xf5d5b051, 0x8fd4b796, 0x4275e17f, 0x627b49a1, 0x6b61c9e1, 0x9523272c);
    ShaStep(m, 64, 0x6b61c9e1, 0xb66c020b, 0x9523272c, 0xf5d5b051, 0x8fd4b796, 0x7cd45c9d, 0x19dfa7ac, 0xed9b0082);
  }

  lemma ShaSteps65(m: seq<bv8>)
    requires |m| == 64 && ShaBlock(m)
    ensures Sha1.Rounds(m, Sha1.H0, 70) == Sha1.Regs(0x3f2588c2, 0x497093c0, 0xde37534a, 0x030f7cad, 0x4405957e)
  {
    hide ShaBlock, Sha1.Rounds, Sha1.W;
    ShaWords64(m);
    ShaSteps60(m);
    ShaStep(m, 65, 0x19dfa7ac, 0x6b61c9e1, 0xed9b0082, 0x9523272c, 0xf5d5b051, 0x000f0000, 0x101655f9, 0x5ad87278);
    ShaStep(m, 66, 0x101655f9, 0x19dfa7ac, 0x5ad87278, 0xed9b0082, 0x9523272c, 0xfb50753a, 0x0c3df2b4, 0x0677e9eb);
    ShaStep(m, 67, 0x0c3df2b4, 0x101655f9, 0x0677e9eb, 0x5ad87278, 0xed9b0082, 0xec6765e8, 0x78dd4d2b, 0x4405957e);
    ShaStep(m, 68, 0x78dd4d2b, 0x0c3df2b4, 0x4405957e, 0x0677e9eb, 0x5ad87278, 0xba3c2be2, 0x497093c0, 0x030f7cad);
    ShaStep(m, 69, 0x497093c0, 0x78dd4d2b, 0x030f7cad, 0x4405957e, 0x0677e9eb, 0x0060c000, 0x3f2588c2, 0xde37534a);
  }

  lemma ShaSteps70(m: seq<bv8>)
    requires |m| == 64 && ShaBlock(m)
    ensures Sha1.Rounds(m, Sha1.H0, 75) == Sha1.Regs(0x5ee76897, 0x11793f6f, 0x3b6d0b79, 0xce616779, 0xf0667e31)
  {
    hide ShaBlock, Sha1.Rounds, Sha1.W;
    ShaWords72(m);
    ShaSteps65(m);
    ShaStep(m, 70, 0x3f2588c2, 0x497093c0, 0xde37534a, 0x030f7cad, 0x4405957e, 0x3a37cd05, 0xc199f8c7, 0x125c24f0);
    ShaStep(m, 71, 0xc199f8c7, 0x3f2588c2, 0x125c24f0, 0xde37534a, 0x030f7cad, 0x458546f4, 0x39859de7, 0x8fc96230);
    ShaStep(m, 72, 0x39859de7, 0xc199f8c7, 0x8fc96230, 0x125c24f0, 0xde37534a, 0xb8599dd6, 0xedb42de4, 0xf0667e31);
    ShaStep(m, 73, 0xedb42de4, 0x39859de7, 0xf0667e31, 0x8fc96230, 0x125c24f0, 0x380a1a26, 0x11793f6f, 0xce616779);
    ShaStep(m, 74, 0x11793f6f, 0xedb42de4, 0xce616779, 0xf0667e31, 0x8fc96230, 0x01e02203, 0x5ee76897, 0x3b6d0b79);
  }

  lemma ShaSteps75(m: seq<bv8>)
    requires |m| == 64 && ShaBlock(m)
    ensures Sha1.Rounds(m, Sha1.H0, 80) == Sha1.Regs(0x42541b35, 0x5738d5e1, 0x21834873, 0x681e6df6, 0xd8fdf6ad)
  {
    hide ShaBlock, Sha1.Rounds, Sha1.W;
    ShaWords72(m);
    ShaSteps70(m);
    ShaStep(m, 75, 0x5ee76897, 0x11793f6f, 0x3b6d0b79, 0xce616779, 0xf0667e31, 0xe7cc3456, 0x63f7dab7, 0xc45e4fdb);
    ShaStep(m, 76, 0x63f7dab7, 0x5ee76897, 0xc45e4fdb, 0x3b6d0b79, 0xce616779, 0xe6e60b69, 0xa079b7d9, 0xd7b9da25);
    ShaStep(m, 77, 0xa079b7d9, 0x63f7dab7, 0xd7b9da25, 0xc45e4fdb, 0x3b6d0b79, 0x00f60a00, 0x860d21cc, 0xd8fdf6ad);
    ShaStep(m, 78, 0x860d21cc, 0xa079b7d9, 0xd8fdf6ad, 0xd7b9da25, 0xc45e4fdb, 0x5795ef4f, 0x5738d5e1, 0x681e6df6);
    ShaStep(m, 79, 0x5738d5e1, 0x860d21cc, 0x681e6df6, 0xd8fdf6ad, 0xd7b9da25, 0x822e0879, 0x42541b35, 0x21834873);
  }

  lemma ShaStart(m: seq<bv8>)
    requires |m| == 64 && ShaBlock(m)
    ensures Sha1.Rounds(m, Sha1.H0, 0) == Sha1.Regs(0x67452301, 0xefcdab89, 0x98badcfe, 0x10325476, 0xc3d2e1f0)
  {
  }

  lemma ShaLayout()
    ensures var m := Sha1.Pad(ABC); |m| == 64 && m[0] == 0x61 && m[1] == 0x62 && m[2] == 0x63 && m[3] == 0x80 && m[63] == 24
    ensures forall k :: 4 <= k < 63 ==> Sha1.Pad(ABC)[k] == 0
  {
    hide Sha1.LengthBytes, Zeros, PadLength;
    PadIs52();
    Joined(ABC, [0x80], Zeros(52), Sha1.LengthBytes(3));
    forall i | 0 <= i < 8 ensures Sha1.LengthBytes(3)[i] == if i == 7 then 24 else 0 {
      ShaLength(i);
    }
  }

  lemma ShaLength(i: nat)
    requires i < 8
    ensures Sha1.LengthBytes(3)[i] == if i == 7 then 24 else 0
  {
    hide BitsLow, BitsHigh, ByteAt;
    BytesOf24();
  }

  lemma ShaLoaded(m: seq<bv8>, t: nat)
    requires |m| == 64 && m[0] == 0x61 && m[1] == 0x62 && m[2] == 0x63 && m[3] == 0x80 && m[63] == 24
    requires forall k :: 4 <= k < 63 ==> m[k] == 0
    requires t < 16
    ensures Sha1.W(m, t) == ShaWord(t)
  {
  }

  /** SHA-1 ("abc") = a9993e364706816aba3e25717850c26c9cd0d89d */
  lemma ShaOfAbc()
    ensures Sha1.Hash(ABC) == [0xa9, 0x99, 0x3e, 0x36, 0x47, 0x06, 0x81, 0x6a, 0xba, 0x3e, 0x25, 0x71, 0x78, 0x50, 0xc2, 0x6c, 0x9c, 0xd0, 0xd8, 0x9d]
  {
    hide Sha1.W, Sha1.Rounds, Sha1.Pad;
    var m := Sha1.Pad(ABC);
    ShaLayout();
    forall t | 0 <= t < 16 ensures Sha1.W(m, t) == ShaWord(t) {
      ShaLoaded(m, t);
    }
    ShaSteps75(m);
    OneBlock(Sha1.Compress, Sha1.H0, m);
    ShaEnds(m);
  }

  lemma ShaEnds(m: seq<bv8>)
    requires |m| == 64 && Sha1.Rounds(m, Sha1.H0, 80) == Sha1.Regs(0x42541b35, 0x5738d5e1, 0x21834873, 0x681e6df6, 0xd8fdf6ad)
    ensures Sha1.Compress(Sha1.H0, m) == Sha1.Regs(0xa9993e36, 0x4706816a, 0xba3e2571, 0x7850c26c, 0x9cd0d89d)
  {
    hide Sha1.Rounds;
  }
}
