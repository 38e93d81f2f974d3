/**
 * The shader-variant build driver: a feature bitmask is turned into an
 * ordered list of `-D` preprocessor defines, a canonical hexadecimal variant
 * name, and one compiler invocation per (stage, variant) entry.
 *
 * Python integers are unbounded and the script only uses non-negative masks,
 * so a mask is a `nat`; bit `i` of a mask is `Bit(mask, i)`.
 */
module ShaderVariants {
  import opened Wrappers

  // ---------------------------------------------------------------------
  // Bits of non-negative integers

  function Pow2(k: nat): (r: nat)
    ensures r >= 1
  {
    if k == 0 then 1 else 2 * Pow2(k - 1)
  }

  /** Bit `i` of `m`, i.e. whether `(1 << i) & m` is non-zero. */
  function Bit(m: nat, i: nat): bool
  {
    if i == 0 then m % 2 == 1 else Bit(m / 2, i - 1)
  }

  lemma MulAssoc(a: nat, b: nat, c: nat)
    ensures (a * b) * c == a * (b * c)
  {
  }

  lemma HalveEven(low: nat, x: nat)
    ensures (low + 2 * x) % 2 == low % 2 && (low + 2 * x) / 2 == low / 2 + x
  {
  }

  /** Adding a multiple of 2^n leaves the bits below n as they were. */
  lemma {:induction false} BitsBelow(low: nat, high: nat, n: nat, i: nat)
    requires low < Pow2(n) && i < n
    ensures Bit(low + Pow2(n) * high, i) == Bit(low, i)
  {
    var x := Pow2(n - 1) * high;
    MulAssoc(2, Pow2(n - 1), high);
    HalveEven(low, x);
    if i > 0 {
      BitsBelow(low / 2, high, n - 1, i - 1);
    }
  }

  // ---------------------------------------------------------------------
  // The catalog

  const DPbrsg: nat        := 0x1       // 1 << 0
  const DUnlit: nat        := 0x2       // 1 << 1
  const DColorMap: nat     := 0x10      // 1 << 4
  const DPbrMap: nat       := 0x20      // 1 << 5
  const DNormalMap: nat    := 0x40      // 1 << 6
  const DOcclusionMap: nat := 0x80      // 1 << 7
  const DEmissiveMap: nat  := 0x100     // 1 << 8
  const DAlphaBlend: nat   := 0x1000    // 1 << 12
  const DAlphaMask: nat    := 0x2000    // 1 << 13
  const DNormal: nat       := 0x4000    // 1 << 14
  const DTangent: nat      := 0x8000    // 1 << 15
  const DTexCoord0: nat    := 0x10000   // 1 << 16
  const DTexCoord1: nat    := 0x20000   // 1 << 17
  const DColor0: nat       := 0x40000   // 1 << 18
  const DSkin: nat         := 0x80000   // 1 << 19

  /** Define name of each flag, keyed by the flag's bit value. */
  const OptDefs: map<nat, string> := map[
    DPbrsg        := "MATERIAL_PBRSG",
    DUnlit        := "MATERIAL_UNLIT",
    DColorMap     := "HAS_COLOR_MAP",
    DPbrMap       := "HAS_PBR_MAP",
    DNormalMap    := "HAS_NORMAL_MAP",
    DOcclusionMap := "HAS_OCCLUSION_MAP",
    DEmissiveMap  := "HAS_EMISSIVE_MAP",
    DAlphaBlend   := "ALPHA_BLEND",
    DAlphaMask    := "ALPHA_MASK",
    DNormal       := "HAS_NORMAL",
    DTangent      := "HAS_TANGENT",
    DTexCoord0    := "HAS_TEXCOORD0",
    DTexCoord1    := "HAS_TEXCOORD1",
    DColor0       := "HAS_COLOR0",
    DSkin         := "HAS_SKIN"
  ]

  const OptMask: nat := 0xFF_FFFF
  const OptLastBit: nat := 23

  const MaterialDefault := "-DMATERIAL_PBRMR"
  const AlphaDefault := "-DALPHA_OPAQUE"

  /** A dictionary lookup of a key that `OptDefs` lacks (Python's KeyError). */
  datatype Error = KeyError(key: nat)

  // ---------------------------------------------------------------------
  // defsForMask

  /** The `-D` option for a catalog flag. */
  function Define(flag: nat): string
    requires flag in OptDefs
  {
    "-D" + OptDefs[flag]
  }

  /** The set bits of `mask` below `n`, in ascending order. */
  function SetBits(mask: nat, n: nat): seq<nat>
  {
    if n == 0 then [] else SetBits(mask, n - 1) + (if Bit(mask, n - 1) then [n - 1] else [])
  }

  /** The per-bit pass of defsForMask over bits 0 .. n-1: the first set bit
      without a define name raises the lookup error. */
  function PerBitDefs(mask: nat, n: nat): Result<seq<string>, Error>
  {
    if n == 0 then Success([])
    else
      match PerBitDefs(mask, n - 1)
      case Failure(e) => Failure(e)
      case Success(d) =>
        if !Bit(mask, n - 1) then Success(d)
        else if Pow2(n - 1) in OptDefs then Success(d + [Define(Pow2(n - 1))])
        else Failure(KeyError(Pow2(n - 1)))
  }

  /** `not mask & (dPbrsg | dUnlit)`: no material bit is set. */
  predicate NoMaterialBit(mask: nat) { !Bit(mask, 0) && !Bit(mask, 1) }

  /** `not mask & (dAlphaBlend | dAlphaMask)`: no alpha-mode bit is set. */
  predicate NoAlphaBit(mask: nat) { !Bit(mask, 12) && !Bit(mask, 13) }

  /** The defaults of the two mutually-exclusive groups, material first. */
  function Defaults(mask: nat): seq<string>
  {
    (if NoMaterialBit(mask) then [MaterialDefault] else [])
    + (if NoAlphaBit(mask) then [AlphaDefault] else [])
  }

  /** What defsForMask returns, or the error it raises. */
  function DefsSpec(mask: nat): Result<seq<string>, Error>
  {
    match PerBitDefs(mask, OptLastBit + 1)
    case Failure(e) => Failure(e)
    case Success(d) => Success(d + Defaults(mask))
  }

  lemma {:induction false} PerBitFailureSticks(mask: nat, i: nat, n: nat)
    requires i <= n && PerBitDefs(mask, i).Failure?
    ensures PerBitDefs(mask, n) == PerBitDefs(mask, i)
    decreases n - i
  {
    if i < n {
      PerBitFailureSticks(mask, i, n - 1);
    }
  }

  /** The loop of defsForMask: bits 0..optLastBit in increasing order. */
  method DefsForMask(mask: nat) returns (r: Result<seq<string>, Error>)
    ensures r == DefsSpec(mask)
  {
    var defs: seq<string> := [];
    for i := 0 to OptLastBit + 1
      invariant PerBitDefs(mask, i) == Success(defs)
    {
      var bit := if Bit(mask, i) then Pow2(i) else 0;   // (1 << i) & mask
      if bit != 0 {
        if bit !in OptDefs {
          PerBitFailureSticks(mask, i + 1, OptLastBit + 1);
          return Failure(KeyError(bit));
        }
        defs := defs + ["-D" + OptDefs[bit]];
      }
    }
    ghost var perBit := defs;
    if NoMaterialBit(mask) {
      defs := defs + [MaterialDefault];
    }
    if NoAlphaBit(mask) {
      defs := defs + [AlphaDefault];
    }
    assert defs == perBit + Defaults(mask);
    r := Success(defs);
  }

  /** The bits listed by SetBits are exactly the set bits below `n`, strictly ascending. */
  lemma {:induction false} SetBitsExact(mask: nat, n: nat)
    ensures forall k :: 0 <= k < |SetBits(mask, n)| ==> SetBits(mask, n)[k] < n && Bit(mask, SetBits(mask, n)[k])
    ensures forall k, l :: 0 <= k < l < |SetBits(mask, n)| ==> SetBits(mask, n)[k] < SetBits(mask, n)[l]
    ensures forall i :: 0 <= i < n && Bit(mask, i) ==> i in SetBits(mask, n)
  {
    if n > 0 {
      SetBitsExact(mask, n - 1);
    }
  }

  /** The per-bit pass succeeds exactly when every set bit below `n` has a define name. */
  lemma {:induction false} PerBitDefsSucceeds(mask: nat, n: nat)
    ensures PerBitDefs(mask, n).Success? <==> forall i :: 0 <= i < n && Bit(mask, i) ==> Pow2(i) in OptDefs
  {
    if n > 0 {
      PerBitDefsSucceeds(mask, n - 1);
      if PerBitDefs(mask, n).Success? {
        assert PerBitDefs(mask, n - 1).Success?;
        forall i | 0 <= i < n && Bit(mask, i) ensures Pow2(i) in OptDefs {
          if i == n - 1 {
          }
        }
      } else if PerBitDefs(mask, n - 1).Success? {
        assert Bit(mask, n - 1) && Pow2(n - 1) !in OptDefs;
      }
    }
  }

  /** On success, the k-th per-bit define belongs to the k-th set bit. */
  lemma {:induction false} PerBitDefsShape(mask: nat, n: nat)
    requires PerBitDefs(mask, n).Success?
    ensures |PerBitDefs(mask, n).value| == |SetBits(mask, n)|
    ensures forall k :: 0 <= k < |SetBits(mask, n)| ==>
      Pow2(SetBits(mask, n)[k]) in OptDefs &&
      PerBitDefs(mask, n).value[k] == Define(Pow2(SetBits(mask, n)[k]))
  {
    if n > 0 {
      PerBitDefsShape(mask, n - 1);
    }
  }

  /** defsForMask fails exactly when some set bit among 0..23 has no define name,
      e.g. bit 2, 9 or 20. */
  lemma DefsFailIffUnnamedBit(mask: nat)
    ensures DefsSpec(mask).Failure? <==> exists i :: 0 <= i <= OptLastBit && Bit(mask, i) && Pow2(i) !in OptDefs
  {
    PerBitDefsSucceeds(mask, OptLastBit + 1);
  }

  /** The per-bit defines come first, one per set bit among 0..23, in strictly
      ascending bit order; then the group defaults. */
  lemma DefsOrder(mask: nat)
    requires DefsSpec(mask).Success?
    ensures var d := DefsSpec(mask).value; var bits := SetBits(mask, OptLastBit + 1);
      && |d| == |bits| + |Defaults(mask)|
      && (forall k, l :: 0 <= k < l < |bits| ==> bits[k] < bits[l])
      && (forall k :: 0 <= k < |bits| ==> bits[k] <= OptLastBit && Bit(mask, bits[k]))
      && (forall i :: 0 <= i <= OptLastBit && Bit(mask, i) ==> i in bits)
      && (forall k :: 0 <= k < |bits| ==> Pow2(bits[k]) in OptDefs && d[k] == Define(Pow2(bits[k])))
      && d[|bits|..] == Defaults(mask)
  {
    SetBitsExact(mask, OptLastBit + 1);
    PerBitDefsShape(mask, OptLastBit + 1);
  }

  /** Bits above optLastBit never contribute a define. */
  lemma {:induction false} HighBitsIgnored(mask: nat)
    ensures DefsSpec(mask) == DefsSpec(mask % Pow2(OptLastBit + 1))
  {
    var p := Pow2(OptLastBit + 1);
    var low := mask % p;
    assert mask == low + p * (mask / p);
    forall i: nat | i <= OptLastBit ensures Bit(low, i) == Bit(mask, i) {
      BitsBelow(low, mask / p, OptLastBit + 1, i);
    }
    PerBitSameBits(mask, low, OptLastBit + 1);
  }

  lemma {:induction false} PerBitSameBits(a: nat, b: nat, n: nat)
    requires forall i :: 0 <= i < n ==> Bit(a, i) == Bit(b, i)
    ensures PerBitDefs(a, n) == PerBitDefs(b, n)
  {
    if n > 0 {
      PerBitSameBits(a, b, n - 1);
    }
  }

  function Count(s: seq<string>, x: string): nat
  {
    if s == [] then 0 else Count(s[..|s| - 1], x) + (if s[|s| - 1] == x then 1 else 0)
  }

  lemma {:induction false} CountAppend(s: seq<string>, t: seq<string>, x: string)
    ensures Count(s + t, x) == Count(s, x) + Count(t, x)
  {
    if t != [] {
      assert (s + t)[..|s + t| - 1] == s + t[..|t| - 1];
      CountAppend(s, t[..|t| - 1], x);
    } else {
      assert s + t == s;
    }
  }

  lemma {:induction false} CountAbsent(s: seq<string>, x: string)
    requires forall k :: 0 <= k < |s| ==> s[k] != x
    ensures Count(s, x) == 0
  {
    if s != [] {
      CountAbsent(s[..|s| - 1], x);
    }
  }

  /** No catalog define collides with a group default. */
  lemma DefineIsNotDefault(flag: nat)
    requires flag in OptDefs
    ensures Define(flag) != MaterialDefault && Define(flag) != AlphaDefault
  {
    assert |Define(flag)| != |AlphaDefault|;
    if flag == DPbrsg {
      assert Define(flag)[14] != MaterialDefault[14];
    } else if flag == DUnlit {
      assert Define(flag)[11] != MaterialDefault[11];
    } else if flag == DNormalMap {
      assert Define(flag)[2] != MaterialDefault[2];
    } else {
      assert |Define(flag)| != |MaterialDefault|;
    }
  }

  /** `-DMATERIAL_PBRMR` appears exactly once iff neither dPbrsg nor dUnlit is
      set, and `-DALPHA_OPAQUE` exactly once iff neither dAlphaBlend nor
      dAlphaMask is set; otherwise neither appears at all. */
  lemma DefaultsExactlyOnce(mask: nat)
    requires DefsSpec(mask).Success?
    ensures Count(DefsSpec(mask).value, MaterialDefault) == (if NoMaterialBit(mask) then 1 else 0)
    ensures Count(DefsSpec(mask).value, AlphaDefault) == (if NoAlphaBit(mask) then 1 else 0)
  {
    var d := PerBitDefs(mask, OptLastBit + 1).value;
    PerBitDefsShape(mask, OptLastBit + 1);
    forall k | 0 <= k < |d| ensures d[k] != MaterialDefault && d[k] != AlphaDefault {
      var bits := SetBits(mask, OptLastBit + 1);
      assert d[k] == Define(Pow2(bits[k]));
      DefineIsNotDefault(Pow2(bits[k]));
    }
    CountAbsent(d, MaterialDefault);
    CountAbsent(d, AlphaDefault);
    CountAppend(d, Defaults(mask), MaterialDefault);
    CountAppend(d, Defaults(mask), AlphaDefault);
    DefaultsCount(mask);
  }

  lemma DefaultsCount(mask: nat)
    ensures Count(Defaults(mask), MaterialDefault) == (if NoMaterialBit(mask) then 1 else 0)
    ensures Count(Defaults(mask), AlphaDefault) == (if NoAlphaBit(mask) then 1 else 0)
  {
    var m: seq<string> := if NoMaterialBit(mask) then [MaterialDefault] else [];
    var a: seq<string> := if NoAlphaBit(mask) then [AlphaDefault] else [];
    assert Defaults(mask) == m + a;
    CountAppend(m, a, MaterialDefault);
    CountAppend(m, a, AlphaDefault);
    assert MaterialDefault != AlphaDefault by {
      assert |MaterialDefault| != |AlphaDefault|;
    }
  }

  // ---------------------------------------------------------------------
  // nameForMask

  function HexDigit(d: nat): char
    requires d < 16
  {
    "0123456789ABCDEF"[d]
  }

  function HexValue(c: char): nat
  {
    if '0' <= c <= '9' then c as nat - '0' as nat
    else if 'A' <= c <= 'F' then c as nat - 'A' as nat + 10
    else 0
  }

  /** Python `hex(n)[2:].upper()`: uppercase digits, no prefix, no leading zeros. */
  function Hex(n: nat): string
  {
    if n < 16 then [HexDigit(n)] else Hex(n / 16) + [HexDigit(n % 16)]
  }

  /** Reads an uppercase hexadecimal numeral. */
  function ParseHex(s: string): nat
  {
    if s == [] then 0 else ParseHex(s[..|s| - 1]) * 16 + HexValue(s[|s| - 1])
  }

  /** `mask & optMask`: for a non-negative mask this keeps the low 24 bits. */
  function NameForMask(mask: nat): string
  {
    Hex(mask % (OptMask + 1))
  }

  lemma {:induction false} HexRoundTrip(n: nat)
    ensures ParseHex(Hex(n)) == n
  {
    if n >= 16 {
      HexRoundTrip(n / 16);
      assert Hex(n)[..|Hex(n)| - 1] == Hex(n / 16);
    }
  }

  lemma {:induction false} HexShape(n: nat)
    ensures |Hex(n)| >= 1
    ensures forall k :: 0 <= k < |Hex(n)| ==> Hex(n)[k] in "0123456789ABCDEF"
    ensures Hex(n)[0] == '0' <==> n == 0
  {
    if n >= 16 {
      HexShape(n / 16);
    }
  }

  /** The name is the masked value in uppercase hex without `0x` or leading
      zeros ("0" for 0); parsing it back gives `mask & 0xFFFFFF`. */
  lemma NameForMaskSpec(mask: nat)
    ensures var s := NameForMask(mask);
      && |s| >= 1
      && (forall k :: 0 <= k < |s| ==> s[k] in "0123456789ABCDEF")
      && (s[0] == '0' <==> mask % (OptMask + 1) == 0)
      && (mask % (OptMask + 1) == 0 ==> s == "0")
      && ParseHex(s) == mask % (OptMask + 1)
  {
    HexShape(mask % (OptMask + 1));
    HexRoundTrip(mask % (OptMask + 1));
  }

  /** Idempotent under re-masking, and collision-free on the masked value. */
  lemma NameForMaskCanonical(m1: nat, m2: nat)
    ensures NameForMask(m1) == NameForMask(m1 % (OptMask + 1))
    ensures NameForMask(m1) == NameForMask(m2) <==> m1 % (OptMask + 1) == m2 % (OptMask + 1)
  {
    ModIdempotent(m1, OptMask + 1);
    HexRoundTrip(m1 % (OptMask + 1));
    HexRoundTrip(m2 % (OptMask + 1));
  }

  lemma ModIdempotent(m: nat, d: nat)
    requires d >= 1
    ensures (m % d) % d == m % d
  {
  }

  // ---------------------------------------------------------------------
  // baseDefs and shdForMask

  const VportN: nat := 1
  const InstN: nat := 1
  const JointN: nat := 100
  const LightN: nat := 16

  /** Python `'{}'.format(n)` for a non-negative integer. */
  function Decimal(n: nat): string
  {
    if n < 10 then ["0123456789"[n]] else Decimal(n / 10) + ["0123456789"[n % 10]]
  }

  function BaseDefs(): seq<string>
  {
    ["-DVPORT_N=" + Decimal(VportN), "-DINST_N=" + Decimal(InstN),
     "-DJOINT_N=" + Decimal(JointN), "-DLIGHT_N=" + Decimal(LightN)]
  }

  lemma BaseDefsValue()
    ensures BaseDefs() == ["-DVPORT_N=1", "-DINST_N=1", "-DJOINT_N=100", "-DLIGHT_N=16"]
  {
    assert Decimal(1) == "1";
    assert Decimal(100) == "100" by {
      assert Decimal(10) == "10";
    }
    assert Decimal(16) == "16";
    assert "-DVPORT_N=" + Decimal(VportN) == "-DVPORT_N=1";
    assert "-DINST_N=" + Decimal(InstN) == "-DINST_N=1";
    assert "-DJOINT_N=" + Decimal(JointN) == "-DJOINT_N=100";
    assert "-DLIGHT_N=" + Decimal(LightN) == "-DLIGHT_N=16";
  }

  /** An entry of the `vert`/`frag` lists: (src, out, extra). */
  datatype Shader = Shader(src: string, out: string, extra: seq<string>)

  function ShdForMask(mask: nat): Result<Shader, Error>
  {
    match DefsSpec(mask)
    case Failure(e) => Failure(e)
    case Success(d) => Success(Shader("Main", NameForMask(mask), BaseDefs() + d))
  }

  /** Every job starts with the four global build parameters, in their fixed
      order, followed by the mask's defines; its output name is the variant name. */
  lemma ShdForMaskSpec(mask: nat)
    ensures ShdForMask(mask).Success? <==> DefsSpec(mask).Success?
    ensures ShdForMask(mask).Success? ==>
      var s := ShdForMask(mask).value;
      && s.src == "Main"
      && s.out == NameForMask(mask) && s.out != ""
      && s.extra[..4] == ["-DVPORT_N=1", "-DINST_N=1", "-DJOINT_N=100", "-DLIGHT_N=16"]
      && s.extra[4..] == DefsSpec(mask).value
  {
    BaseDefsValue();
    NameForMaskSpec(mask);
  }

  lemma MulLe(a: nat, b: nat, c: nat)
    requires a <= b
    ensures a * c <= b * c
  {
  }

  lemma UniqueDiv(m: nat, d: nat, q: nat, r: nat)
    requires d >= 1 && r < d && m == q * d + r
    ensures m / d == q
  {
    var q', r' := m / d, m % d;
    assert m == q' * d + r';
    if q' < q {
      MulLe(q' + 1, q, d);
    } else if q < q' {
      MulLe(q + 1, q', d);
    }
  }

  lemma DivDiv(m: nat, a: nat, b: nat)
    requires a >= 1 && b >= 1
    ensures m / a / b == m / (a * b)
  {
    var q1, r1 := m / a, m % a;
    var q, r2 := q1 / b, q1 % b;
    Combine(m, a, b, q1, r1, q, r2);
    UniqueDiv(m, a * b, q, r2 * a + r1);
  }

  /** Two divisions with remainder compose into one by the product. */
  lemma Combine(m: nat, a: nat, b: nat, q1: nat, r1: nat, q: nat, r2: nat)
    requires a >= 1 && b >= 1 && r1 < a && r2 < b
    requires m == q1 * a + r1 && q1 == q * b + r2
    ensures a * b >= 1 && r2 * a + r1 < a * b && m == q * (a * b) + (r2 * a + r1)
  {
    assert m == q * (a * b) + (r2 * a + r1) by {
      assert q1 * a == (q * b + r2) * a;
      Distribute(q, b, r2, a);
    }
    assert r2 * a + r1 < a * b by {
      MulLe(r2, b - 1, a);
      assert (b - 1) * a == a * b - a;
    }
    MulLe(1, b, a);
  }

  lemma Distribute(q: nat, b: nat, r: nat, a: nat)
    ensures (q * b + r) * a == q * (a * b) + r * a
  {
  }

  /** Bit i is the parity of m shifted right by i. */
  lemma {:induction false} BitViaShift(m: nat, i: nat)
    ensures Bit(m, i) == ((m / Pow2(i)) % 2 == 1)
  {
    if i > 0 {
      BitViaShift(m / 2, i - 1);
      DivDiv(m, 2, Pow2(i - 1));
    }
  }

  lemma {:induction false} PowValues(i: nat)
    requires i <= OptLastBit
    ensures Pow2(i) == [0x1, 0x2, 0x4, 0x8, 0x10, 0x20, 0x40, 0x80, 0x100, 0x200, 0x400, 0x800,
                        0x1000, 0x2000, 0x4000, 0x8000, 0x10000, 0x20000, 0x40000, 0x80000,
                        0x100000, 0x200000, 0x400000, 0x800000][i]
  {
    if i > 0 {
      PowValues(i - 1);
    }
  }

  /** The example variant dColorMap | dNormal | dTexCoord0: its defines are
      HAS_COLOR_MAP, HAS_NORMAL, HAS_TEXCOORD0 and both defaults; its name is 14010. */
  lemma ExampleVariant()
    ensures DefsSpec(DColorMap + DNormal + DTexCoord0) ==
      Success([Define(DColorMap), Define(DNormal), Define(DTexCoord0), MaterialDefault, AlphaDefault])
    ensures NameForMask(DColorMap + DNormal + DTexCoord0) == "14010"
  {
    ExampleDefs(DColorMap + DNormal + DTexCoord0);
    ExampleName();
  }

  lemma ExampleName()
    ensures NameForMask(0x14010) == "14010"
  {
    assert 0x14010 % (OptMask + 1) == 0x14010;
    assert Hex(0x1) == "1";
    assert Hex(0x14) == "14";
    assert Hex(0x140) == "140";
    assert Hex(0x1401) == "1401";
  }

  lemma ExampleDefs(m: nat)
    requires m == 0x14010
    ensures DefsSpec(m) ==
      Success([Define(DColorMap), Define(DNormal), Define(DTexCoord0), MaterialDefault, AlphaDefault])
  {
    ExampleBits(m);
    ExamplePerBit(m);
    assert [Define(DColorMap), Define(DNormal), Define(DTexCoord0)] + Defaults(m)
        == [Define(DColorMap), Define(DNormal), Define(DTexCoord0), MaterialDefault, AlphaDefault];
  }

  lemma ExamplePerBit(m: nat)
    requires !Bit(m, 0) && !Bit(m, 1) && !Bit(m, 2) && !Bit(m, 3) && Bit(m, 4) && !Bit(m, 5) && !Bit(m, 6) && !Bit(m, 7)
    requires !Bit(m, 8) && !Bit(m, 9) && !Bit(m, 10) && !Bit(m, 11) && !Bit(m, 12) && !Bit(m, 13) && Bit(m, 14) && !Bit(m, 15)
    requires Bit(m, 16) && !Bit(m, 17) && !Bit(m, 18) && !Bit(m, 19) && !Bit(m, 20) && !Bit(m, 21) && !Bit(m, 22) && !Bit(m, 23)
    ensures PerBitDefs(m, 24) == Success([Define(DColorMap), Define(DNormal), Define(DTexCoord0)])
  {
    assert PerBitDefs(m, 0) == Success([]);
    PerBits0To4(m, []);
    PerBits4To8(m, []);
    assert [] + [Define(DColorMap)] == [Define(DColorMap)];
    PerBits8To12(m, [Define(DColorMap)]);
    PerBits12To16(m, [Define(DColorMap)]);
    assert [Define(DColorMap)] + [Define(DNormal)] == [Define(DColorMap), Define(DNormal)];
    PerBits16To20(m, [Define(DColorMap), Define(DNormal)]);
    assert [Define(DColorMap), Define(DNormal)] + [Define(DTexCoord0)] == [Define(DColorMap), Define(DNormal), Define(DTexCoord0)];
    PerBits20To24(m, [Define(DColorMap), Define(DNormal), Define(DTexCoord0)]);
  }

  lemma PerBits0To4(m: nat, d: seq<string>)
    requires PerBitDefs(m, 0) == Success(d)
    requires !Bit(m, 0) && !Bit(m, 1) && !Bit(m, 2) && !Bit(m, 3)
    ensures PerBitDefs(m, 4) == Success(d)
  {
    PerBitClearStep(m, 0);
    PerBitClearStep(m, 1);
    PerBitClearStep(m, 2);
    PerBitClearStep(m, 3);
  }

  lemma PerBits4To8(m: nat, d: seq<string>)
    requires PerBitDefs(m, 4) == Success(d)
    requires Bit(m, 4) && !Bit(m, 5) && !Bit(m, 6) && !Bit(m, 7)
    ensures PerBitDefs(m, 8) == Success(d + [Define(DColorMap)])
  {
    PowValues(4);
    assert Pow2(4) == DColorMap && DColorMap in OptDefs;
    PerBitSetStep(m, 4, d);
    PerBitClearStep(m, 5);
    PerBitClearStep(m, 6);
    PerBitClearStep(m, 7);
  }

  lemma PerBits8To12(m: nat, d: seq<string>)
    requires PerBitDefs(m, 8) == Success(d)
    requires !Bit(m, 8) && !Bit(m, 9) && !Bit(m, 10) && !Bit(m, 11)
    ensures PerBitDefs(m, 12) == Success(d)
  {
    PerBitClearStep(m, 8);
    PerBitClearStep(m, 9);
    PerBitClearStep(m, 10);
    PerBitClearStep(m, 11);
  }

  lemma PerBits12To16(m: nat, d: seq<string>)
    requires PerBitDefs(m, 12) == Success(d)
    requires !Bit(m, 12) && !Bit(m, 13) && Bit(m, 14) && !Bit(m, 15)
    ensures PerBitDefs(m, 16) == Success(d + [Define(DNormal)])
  {
    PowValues(14);
    assert Pow2(14) == DNormal && DNormal in OptDefs;
    PerBitClearStep(m, 12);
    PerBitClearStep(m, 13);
    PerBitSetStep(m, 14, d);
    PerBitClearStep(m, 15);
  }

  lemma PerBits16To20(m: nat, d: seq<string>)
    requires PerBitDefs(m, 16) == Success(d)
    requires Bit(m, 16) && !Bit(m, 17) && !Bit(m, 18) && !Bit(m, 19)
    ensures PerBitDefs(m, 20) == Success(d + [Define(DTexCoord0)])
  {
    PowValues(16);
    assert Pow2(16) == DTexCoord0 && DTexCoord0 in OptDefs;
    PerBitSetStep(m, 16, d);
    PerBitClearStep(m, 17);
    PerBitClearStep(m, 18);
    PerBitClearStep(m, 19);
  }

  lemma PerBits20To24(m: nat, d: seq<string>)
    requires PerBitDefs(m, 20) == Success(d)
    requires !Bit(m, 20) && !Bit(m, 21) && !Bit(m, 22) && !Bit(m, 23)
    ensures PerBitDefs(m, 24) == Success(d)
  {
    PerBitClearStep(m, 20);
    PerBitClearStep(m, 21);
    PerBitClearStep(m, 22);
    PerBitClearStep(m, 23);
  }

  lemma ExampleBits(m: nat)
    requires m == 0x14010
    ensures !Bit(m, 0) && !Bit(m, 1) && !Bit(m, 2) && !Bit(m, 3) && Bit(m, 4) && !Bit(m, 5) && !Bit(m, 6) && !Bit(m, 7)
    ensures !Bit(m, 8) && !Bit(m, 9) && !Bit(m, 10) && !Bit(m, 11) && !Bit(m, 12) && !Bit(m, 13) && Bit(m, 14) && !Bit(m, 15)
    ensures Bit(m, 16) && !Bit(m, 17) && !Bit(m, 18) && !Bit(m, 19) && !Bit(m, 20) && !Bit(m, 21) && !Bit(m, 22) && !Bit(m, 23)
  {
    ExampleBits0To4(m);
    ExampleBits4To8(m);
    ExampleBits8To12(m);
    ExampleBits12To16(m);
    ExampleBits16To20(m);
    ExampleBits20To24(m);
  }

  lemma ExampleBits0To4(m: nat)
    requires m == 0x14010
    ensures !Bit(m, 0) && !Bit(m, 1) && !Bit(m, 2) && !Bit(m, 3)
  {
    BitViaShift(m, 0); PowValues(0);
    BitViaShift(m, 1); PowValues(1);
    BitViaShift(m, 2); PowValues(2);
    BitViaShift(m, 3); PowValues(3);
  }

  lemma ExampleBits4To8(m: nat)
    requires m == 0x14010
    ensures Bit(m, 4) && !Bit(m, 5) && !Bit(m, 6) && !Bit(m, 7)
  {
    BitViaShift(m, 4); PowValues(4);
    BitViaShift(m, 5); PowValues(5);
    BitViaShift(m, 6); PowValues(6);
    BitViaShift(m, 7); PowValues(7);
  }

  lemma ExampleBits8To12(m: nat)
    requires m == 0x14010
    ensures !Bit(m, 8) && !Bit(m, 9) && !Bit(m, 10) && !Bit(m, 11)
  {
    BitViaShift(m, 8); PowValues(8);
    BitViaShift(m, 9); PowValues(9);
    BitViaShift(m, 10); PowValues(10);
    BitViaShift(m, 11); PowValues(11);
  }

  lemma ExampleBits12To16(m: nat)
    requires m == 0x14010
    ensures !Bit(m, 12) && !Bit(m, 13) && Bit(m, 14) && !Bit(m, 15)
  {
    BitViaShift(m, 12); PowValues(12);
    BitViaShift(m, 13); PowValues(13);
    BitViaShift(m, 14); PowValues(14);
    BitViaShift(m, 15); PowValues(15);
  }

  lemma ExampleBits16To20(m: nat)
    requires m == 0x14010
    ensures Bit(m, 16) && !Bit(m, 17) && !Bit(m, 18) && !Bit(m, 19)
  {
    BitViaShift(m, 16); PowValues(16);
    BitViaShift(m, 17); PowValues(17);
    BitViaShift(m, 18); PowValues(18);
    BitViaShift(m, 19); PowValues(19);
  }

  lemma ExampleBits20To24(m: nat)
    requires m == 0x14010
    ensures !Bit(m, 20) && !Bit(m, 21) && !Bit(m, 22) && !Bit(m, 23)
  {
    BitViaShift(m, 20); PowValues(20);
    BitViaShift(m, 21); PowValues(21);
    BitViaShift(m, 22); PowValues(22);
    BitViaShift(m, 23); PowValues(23);
  }

  lemma PerBitSetStep(mask: nat, n: nat, d: seq<string>)
    requires PerBitDefs(mask, n) == Success(d) && Bit(mask, n) && Pow2(n) in OptDefs
    ensures PerBitDefs(mask, n + 1) == Success(d + [Define(Pow2(n))])
  {
  }

  lemma PerBitClearStep(mask: nat, n: nat)
    requires !Bit(mask, n)
    ensures PerBitDefs(mask, n + 1) == PerBitDefs(mask, n)
  {
  }

  // ---------------------------------------------------------------------
  // The static job lists and the compile driver

  /** Masks of the `vert` and `frag` lists (disjoint bits, so `|` is `+`). */
  const StageMasks: seq<nat> := [DNormal, DNormal + DTexCoord0 + DColorMap,
                                 DNormal + DTexCoord0 + DColorMap + DSkin]

  /** Building a list evaluates shdForMask on each mask in turn; the first
      lookup error aborts the script before any job runs. */
  function Entries(masks: seq<nat>): (r: Result<seq<Shader>, Error>)
    ensures r.Success? ==> |r.value| == |masks| &&
                           forall k :: 0 <= k < |masks| ==> ShdForMask(masks[k]) == Success(r.value[k])
    ensures r.Failure? ==> exists k :: 0 <= k < |masks| && ShdForMask(masks[k]).Failure?
  {
    if masks == [] then Success([])
    else
      match ShdForMask(masks[0])
      case Failure(e) => Failure(e)
      case Success(s) =>
        match Entries(masks[1..])
        case Failure(e) => Failure(e)
        case Success(rest) => Success([s] + rest)
  }

  /** The bit positions 0 to 23 that have no define name. */
  lemma UnnamedBits(i: nat)
    requires i <= OptLastBit && Pow2(i) !in OptDefs
    ensures i in {2, 3, 9, 10, 11, 20, 21, 22, 23}
  {
    PowValues(i);
  }

  /** A mask none of whose unnamed bits is set has its defines. */
  lemma NamedMaskSucceeds(mask: nat)
    requires !Bit(mask, 2) && !Bit(mask, 3) && !Bit(mask, 9) && !Bit(mask, 10) && !Bit(mask, 11)
    requires !Bit(mask, 20) && !Bit(mask, 21) && !Bit(mask, 22) && !Bit(mask, 23)
    ensures DefsSpec(mask).Success?
  {
    DefsFailIffUnnamedBit(mask);
    forall i | 0 <= i <= OptLastBit && Bit(mask, i) ensures Pow2(i) in OptDefs {
      if Pow2(i) !in OptDefs {
        UnnamedBits(i);
      }
    }
  }

  /** A bit whose shifted parity is even is clear. */
  lemma ClearBit(m: nat, i: nat, p: nat)
    requires i <= OptLastBit && p == Pow2(i) && (m / p) % 2 == 0
    ensures !Bit(m, i)
  {
    BitViaShift(m, i);
  }

  /** `dNormal` sets no unnamed bit. */
  lemma UnnamedClearNormal(m: nat)
    requires m == 0x4000
    ensures !Bit(m, 2) && !Bit(m, 3) && !Bit(m, 9) && !Bit(m, 10) && !Bit(m, 11)
    ensures !Bit(m, 20) && !Bit(m, 21) && !Bit(m, 22) && !Bit(m, 23)
  {
    PowValues(2); PowValues(3); PowValues(9); PowValues(10); PowValues(11);
    PowValues(20); PowValues(21); PowValues(22); PowValues(23);
    ClearBit(m, 2, 0x4); ClearBit(m, 3, 0x8); ClearBit(m, 9, 0x200);
    ClearBit(m, 10, 0x400); ClearBit(m, 11, 0x800); ClearBit(m, 20, 0x100000);
    ClearBit(m, 21, 0x200000); ClearBit(m, 22, 0x400000); ClearBit(m, 23, 0x800000);
  }

  /** `dNormal | dTexCoord0 | dColorMap` sets no unnamed bit. */
  lemma UnnamedClearColor(m: nat)
    requires m == 0x14010
    ensures !Bit(m, 2) && !Bit(m, 3) && !Bit(m, 9) && !Bit(m, 10) && !Bit(m, 11)
    ensures !Bit(m, 20) && !Bit(m, 21) && !Bit(m, 22) && !Bit(m, 23)
  {
    PowValues(2); PowValues(3); PowValues(9); PowValues(10); PowValues(11);
    PowValues(20); PowValues(21); PowValues(22); PowValues(23);
    ClearBit(m, 2, 0x4); ClearBit(m, 3, 0x8); ClearBit(m, 9, 0x200);
    ClearBit(m, 10, 0x400); ClearBit(m, 11, 0x800); ClearBit(m, 20, 0x100000);
    ClearBit(m, 21, 0x200000); ClearBit(m, 22, 0x400000); ClearBit(m, 23, 0x800000);
  }

  /** `dNormal | dTexCoord0 | dColorMap | dSkin` sets no unnamed bit. */
  lemma UnnamedClearSkin(m: nat)
    requires m == 0x94010
    ensures !Bit(m, 2) && !Bit(m, 3) && !Bit(m, 9) && !Bit(m, 10) && !Bit(m, 11)
    ensures !Bit(m, 20) && !Bit(m, 21) && !Bit(m, 22) && !Bit(m, 23)
  {
    PowValues(2); PowValues(3); PowValues(9); PowValues(10); PowValues(11);
    PowValues(20); PowValues(21); PowValues(22); PowValues(23);
    ClearBit(m, 2, 0x4); ClearBit(m, 3, 0x8); ClearBit(m, 9, 0x200);
    ClearBit(m, 10, 0x400); ClearBit(m, 11, 0x800); ClearBit(m, 20, 0x100000);
    ClearBit(m, 21, 0x200000); ClearBit(m, 22, 0x400000); ClearBit(m, 23, 0x800000);
  }

  /** The three masks of the job lists set no unnamed bit. */
  lemma StageMasksNamed(m: nat)
    requires m in StageMasks
    ensures !Bit(m, 2) && !Bit(m, 3) && !Bit(m, 9) && !Bit(m, 10) && !Bit(m, 11)
    ensures !Bit(m, 20) && !Bit(m, 21) && !Bit(m, 22) && !Bit(m, 23)
  {
    if m == 0x4000 {
      UnnamedClearNormal(m);
    } else if m == 0x14010 {
      UnnamedClearColor(m);
    } else {
      UnnamedClearSkin(m);
    }
  }

  /** Building the job lists succeeds: every mask in them has its defines,
      so the script always reaches its jobs. */
  lemma StageEntriesSucceed()
    ensures Entries(StageMasks).Success? && |Entries(StageMasks).value| == |StageMasks|
  {
    forall k | 0 <= k < |StageMasks| ensures DefsSpec(StageMasks[k]).Success? {
      StageMasksNamed(StageMasks[k]);
      NamedMaskSucceeds(StageMasks[k]);
    }
    ShdForMaskSpec(StageMasks[0]);
    ShdForMaskSpec(StageMasks[1]);
    ShdForMaskSpec(StageMasks[2]);
    assert StageMasks[1..][1..] == [StageMasks[2]];
  }

  const SrcDir := "tmp/shd/"
  const DstDir := "bin/"
  const Lang := ""
  const Prefix := ""
  const Suffix := ".bin"
  const Compiler := "tmp/shdc"

  function InputPath(src: string, stage: string): string
  {
    SrcDir + src + stage + Lang
  }

  function OutputPath(src: string, stage: string, out: string): string
  {
    DstDir + Prefix + (if out == "" then src else out) + stage + Suffix
  }

  /** The argument vector handed to `subprocess.run` by `compile`. */
  function Command(src: string, stage: string, out: string, extra: seq<string>): seq<string>
  {
    [Compiler, "-V", InputPath(src, stage), "-o", OutputPath(src, stage, out)] + extra
  }

  /** Since nameForMask never returns '', every job's output is named by its
      hex variant and not by its source name. */
  lemma OutputNamedByVariant(mask: nat, stage: string)
    requires ShdForMask(mask).Success?
    ensures var s := ShdForMask(mask).value;
      OutputPath(s.src, stage, s.out) == "bin/" + NameForMask(mask) + stage + ".bin"
  {
    ShdForMaskSpec(mask);
  }

  /** One process invocation: its argument vector and the exit status the
      external compiler returned for it. */
  datatype Invocation = Invocation(args: seq<string>, status: int)

  /** compileVert / compileFrag: one `compile` per entry, in list order. The
      exit status of each run is supplied by the environment in `statuses`;
      since `subprocess.run` is called without `check`, it is never inspected. */
  method CompileStage(entries: seq<Shader>, stage: string, statuses: seq<int>)
    returns (log: seq<Invocation>)
    requires |statuses| == |entries|
    ensures |log| == |entries|
    ensures forall k :: 0 <= k < |entries| ==>
      log[k] == Invocation(Command(entries[k].src, stage, entries[k].out, entries[k].extra), statuses[k])
  {
    log := [];
    for k := 0 to |entries|
      invariant |log| == k
      invariant forall j :: 0 <= j < k ==>
        log[j] == Invocation(Command(entries[j].src, stage, entries[j].out, entries[j].extra), statuses[j])
    {
      var e := entries[k];
      log := log + [Invocation(Command(e.src, stage, e.out, e.extra), statuses[k])];
    }
  }

  /** The script body: every vert entry, then every frag entry. A lookup
      error while building the lists stops the script before any job. */
  method RunScript(vertStatuses: seq<int>, fragStatuses: seq<int>)
    returns (r: Result<seq<Invocation>, Error>)
    requires |vertStatuses| == |StageMasks| && |fragStatuses| == |StageMasks|
    ensures Entries(StageMasks).Failure? ==> r.Failure?
    ensures Entries(StageMasks).Success? ==>
      var es := Entries(StageMasks).value;
      && r.Success? && |r.value| == 2 * |es|
      && (forall k :: 0 <= k < |es| ==>
            (r.value[k] == Invocation(Command(es[k].src, ".vert", es[k].out, es[k].extra), vertStatuses[k])
             && r.value[|es| + k] == Invocation(Command(es[k].src, ".frag", es[k].out, es[k].extra), fragStatuses[k])))
  {
    var entries := Entries(StageMasks);
    if entries.Failure? {
      return Failure(entries.error);
    }
    var vert := CompileStage(entries.value, ".vert", vertStatuses);
    var frag := CompileStage(entries.value, ".frag", fragStatuses);
    r := Success(vert + frag);
  }
}
