/** How a C compiler lays out a struct of characters and 4-byte ints, and the byte image
    a sender has to produce for it. */
module Layout {
  import opened Ints

  newtype byte = x: int | 0 <= x < 256

  const INT_SIZE: nat := 4

  datatype Alignment = Anywhere | OnWord {
    function Unit(): nat {
      if Anywhere? then 1 else INT_SIZE
    }
  }

  datatype Shape = Shape(size: nat, align: Alignment)

  /** Padding from n to the next aligned offset. */
  function Padding(n: nat, align: Alignment): (p: nat)
    ensures p < align.Unit() && (n + p) % align.Unit() == 0
  {
    if align.Anywhere? then 0 else (INT_SIZE - n % INT_SIZE) % INT_SIZE
  }

  /** Where the members end, each placed at the first aligned offset after the previous one. */
  function End(ss: seq<Shape>): nat {
    if ss == [] then 0
    else
      var n := |ss| - 1;
      var e := End(ss[..n]);
      e + Padding(e, ss[n].align) + ss[n].size
  }

  function OffsetOf(ss: seq<Shape>, k: nat): nat
    requires k < |ss|
  {
    var e := End(ss[..k]);
    e + Padding(e, ss[k].align)
  }

  /** Members lie one after the other without overlap, each at a multiple of its alignment. */
  lemma {:induction false} NoOverlap(ss: seq<Shape>, j: nat, k: nat)
    requires j < k < |ss|
    ensures OffsetOf(ss, j) + ss[j].size <= OffsetOf(ss, k)
    ensures OffsetOf(ss, k) % ss[k].align.Unit() == 0
  {
    EndGrows(ss, j + 1, k);
    assert ss[..j + 1][..j] == ss[..j];
  }

  lemma {:induction false} EndGrows(ss: seq<Shape>, j: nat, k: nat)
    requires j <= k <= |ss|
    ensures End(ss[..j]) <= End(ss[..k])
    decreases k
  {
    if j < k {
      EndGrows(ss, j, k - 1);
      assert ss[..k][..k - 1] == ss[..k - 1];
    }
  }

  function Zeros(n: nat): (z: seq<byte>)
    ensures |z| == n && forall i | 0 <= i < n :: z[i] == 0
  {
    seq(n, i => 0)
  }

  datatype Member = Member(bytes: seq<byte>, align: Alignment)

  function Shapes(ms: seq<Member>): (ss: seq<Shape>)
    ensures |ss| == |ms| && forall i | 0 <= i < |ms| :: ss[i] == Shape(|ms[i].bytes|, ms[i].align)
  {
    seq(|ms|, i requires 0 <= i < |ms| => Shape(|ms[i].bytes|, ms[i].align))
  }

  /** The bytes of a struct with these members. */
  function Image(ms: seq<Member>): (b: seq<byte>) {
    if ms == [] then []
    else
      var n := |ms| - 1;
      var b := Image(ms[..n]);
      b + Zeros(Padding(|b|, ms[n].align)) + ms[n].bytes
  }

  lemma ImageNext(ms: seq<Member>, k: nat)
    requires k < |ms|
    ensures var b := Image(ms[..k]);
      Image(ms[..k + 1]) == b + Zeros(Padding(|b|, ms[k].align)) + ms[k].bytes
  {
    assert ms[..k + 1][..k] == ms[..k];
  }

  lemma {:induction false} ImageSize(ms: seq<Member>, k: nat)
    requires k <= |ms|
    ensures |Image(ms[..k])| == End(Shapes(ms)[..k])
  {
    if k > 0 {
      ImageSize(ms, k - 1);
      ImageNext(ms, k - 1);
      assert Shapes(ms)[..k][..k - 1] == Shapes(ms)[..k - 1];
    }
  }

  lemma {:induction false} ImagePrefix(ms: seq<Member>, j: nat, k: nat)
    requires j <= k <= |ms|
    ensures Image(ms[..j]) <= Image(ms[..k])
    decreases k
  {
    if j < k {
      ImagePrefix(ms, j, k - 1);
      ImageNext(ms, k - 1);
    }
  }

  ghost predicate HoldsAt(whole: seq<byte>, off: nat, part: seq<byte>) {
    off + |part| <= |whole| && whole[off..off + |part|] == part
  }

  lemma SliceAfter(head: seq<byte>, body: seq<byte>, whole: seq<byte>)
    requires head + body <= whole
    ensures HoldsAt(whole, |head|, body)
  {
    assert whole[..|head| + |body|] == head + body;
    assert whole[|head|..|head| + |body|] == whole[..|head| + |body|][|head|..];
  }

  lemma ImageUpTo(ms: seq<Member>, k: nat)
    requires k < |ms|
    ensures var b := Image(ms[..k]);
      b + Zeros(Padding(|b|, ms[k].align)) + ms[k].bytes <= Image(ms)
  {
    ImageNext(ms, k);
    ImagePrefix(ms, k + 1, |ms|);
    assert ms[..|ms|] == ms;
  }

  lemma OffsetInImage(ms: seq<Member>, k: nat)
    requires k < |ms|
    ensures var b := Image(ms[..k]);
      OffsetOf(Shapes(ms), k) == |b + Zeros(Padding(|b|, ms[k].align))|
  {
    ImageSize(ms, k);
  }

  /** The image holds each member's bytes at the member's C offset. */
  lemma ReadMember(ms: seq<Member>, k: nat)
    requires k < |ms|
    ensures HoldsAt(Image(ms), OffsetOf(Shapes(ms), k), ms[k].bytes)
  {
    OffsetInImage(ms, k);
    ImageUpTo(ms, k);
    var b := Image(ms[..k]);
    SliceAfter(b + Zeros(Padding(|b|, ms[k].align)), ms[k].bytes, Image(ms));
  }

  // ---------- little-endian integers ----------

  function LittleEndian(v: nat): (b: seq<byte>)
    requires v < U32_LIMIT
    ensures |b| == 4
  {
    [(v % 256) as byte, (v / 0x100 % 256) as byte, (v / 0x1_0000 % 256) as byte, (v / 0x100_0000) as byte]
  }

  function FromLittleEndian(b: seq<byte>): nat
    requires |b| == 4
  {
    b[0] as nat + b[1] as nat * 0x100 + b[2] as nat * 0x1_0000 + b[3] as nat * 0x100_0000
  }

  /** The lowest byte comes first. */
  lemma LittleEndianRoundTrip(v: nat)
    requires v < U32_LIMIT
    ensures FromLittleEndian(LittleEndian(v)) == v
    ensures var b := LittleEndian(v); v == b[0] as nat + 0x100 * b[1] as nat + 0x1_0000 * b[2] as nat + 0x100_0000 * b[3] as nat
  {
    Digit256(v);
    Digit256(v / 0x100);
    Digit256(v / 0x1_0000);
    DivTwice(v);
  }

  lemma Digit256(v: nat)
    ensures v == 0x100 * (v / 0x100) + v % 256 && 0 <= v % 256 < 256
  {
  }

  lemma DivTwice(v: nat)
    ensures v / 0x100 / 0x100 == v / 0x1_0000 && v / 0x1_0000 / 0x100 == v / 0x100_0000
  {
  }

  lemma S32Exact(v: int)
    ensures S32(v) == v <==> -0x8000_0000 <= v < 0x8000_0000
  {
  }
}
