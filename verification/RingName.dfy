/** Ring names: parseRingInfo of core/gpudridebug.c against the names the driver prints. */
module RingName {
  import opened Words
  import opened Decimal

  const RING_NAME_SIZE := 50
  const PREFIX: string := "amdgpu_ring_"

  datatype RingType = Unknown | Gfx | Comp | Kiq | Sdma | Vce | Uvd

  /** A scanf format: literal text and %d directives. */
  datatype Directive = Text(s: string) | Int

  const GFX_FORMAT: seq<Directive> := [Text("gfx_"), Int]
  const SDMA_FORMAT: seq<Directive> := [Text("sdma"), Int]
  const VCE_FORMAT: seq<Directive> := [Text("vce"), Int]
  const COMP_FORMAT: seq<Directive> := [Text("comp_"), Int, Text("."), Int, Text("."), Int]
  const KIQ_FORMAT: seq<Directive> := [Text("kiq_"), Int, Text("."), Int, Text("."), Int]
  const UVD_FORMAT: seq<Directive> := [Text("uvd_"), Int]
  const UVD_ENC_FORMAT: seq<Directive> := [Text("uvd_enc_"), Int, Text("."), Int]

  // The numbers sscanf converts before its first mismatch.
  function Scan(s: string, format: seq<Directive>): seq<int>
    decreases |format|
  {
    if format == [] then []
    else match format[0]
      case Text(t) => if t <= s then Scan(s[|t|..], format[1..]) else []
      case Int =>
        match ScanInt(s)
        case Mismatch => []
        case Number(v, rest) => [v] + Scan(rest, format[1..])
  }

  /** The three slots of values[]. */
  datatype Values = Values(a: int, b: int, c: int)

  // The slots of values[] after a scan that must convert n numbers, and before any.
  function Slots(numbers: seq<int>, n: nat): Values
    requires n <= 3
  {
    if |numbers| != n then Values(-1, -1, -1)
    else Values(if n > 0 then numbers[0] else -1, if n > 1 then numbers[1] else -1, if n > 2 then numbers[2] else -1)
  }

  // ---------- what the formats stand for ----------

  // A prefix and one number behind it.
  ghost function One(p: string, prefix: string): Values {
    if prefix <= p && ScanInt(p[|prefix|..]).Number? then Values(ScanInt(p[|prefix|..]).value, -1, -1)
    else Values(-1, -1, -1)
  }

  // The number at the start of s, if a dot and another number follow.
  ghost predicate DotNumber(s: Scanned) {
    s.Number? && s.rest != [] && s.rest[0] == '.' && ScanInt(s.rest[1..]).Number?
  }

  ghost function Two(p: string, prefix: string): Values {
    if !(prefix <= p) then Values(-1, -1, -1)
    else
      var a := ScanInt(p[|prefix|..]);
      if DotNumber(a) then Values(a.value, ScanInt(a.rest[1..]).value, -1) else Values(-1, -1, -1)
  }

  ghost function Three(p: string, prefix: string): Values {
    if !(prefix <= p) then Values(-1, -1, -1)
    else
      var a := ScanInt(p[|prefix|..]);
      if !DotNumber(a) then Values(-1, -1, -1)
      else
        var b := ScanInt(a.rest[1..]);
        if DotNumber(b) then Values(a.value, b.value, ScanInt(b.rest[1..]).value) else Values(-1, -1, -1)
  }

  // The kind and the values of a short name, form by form.
  ghost predicate IsParsed(p: string, kind: RingType, values: Values) {
    if "gfx" <= p then kind == Gfx && values == One(p, "gfx_")
    else if "sdma" <= p then kind == Sdma && values == One(p, "sdma")
    else if "comp" <= p then kind == Comp && values == Three(p, "comp_")
    else if "uvd" <= p then
      kind == Uvd && values == if "uvd_" <= p && ScanInt(p[4..]).Number? then One(p, "uvd_") else Two(p, "uvd_enc_")
    else if "kiq" <= p then kind == Kiq && values == Three(p, "kiq_")
    else if "vce" <= p then kind == Vce && values == One(p, "vce")
    else kind == Unknown && values == Values(-1, -1, -1)
  }

  lemma DotIs(s: string)
    ensures "." <= s <==> s != [] && s[0] == '.'
  {
  }

  lemma ScansOne(p: string, prefix: string)
    ensures Slots(Scan(p, [Text(prefix), Int]), 1) == One(p, prefix)
    ensures |Scan(p, [Text(prefix), Int])| == 1 <==> prefix <= p && ScanInt(p[|prefix|..]).Number?
  {
    assert [Text(prefix), Int][1..] == [Int] && [Int][1..] == [];
  }

  lemma ScansTwo(p: string, prefix: string)
    ensures Slots(Scan(p, [Text(prefix), Int, Text("."), Int]), 2) == Two(p, prefix)
  {
    assert [Text(prefix), Int, Text("."), Int][1..] == [Int, Text("."), Int];
    assert [Int, Text("."), Int][1..] == [Text("."), Int];
    if prefix <= p && ScanInt(p[|prefix|..]).Number? {
      var rest := ScanInt(p[|prefix|..]).rest;
      ScansOne(rest, ".");
      DotIs(rest);
    }
  }

  lemma ScansThree(p: string, prefix: string)
    ensures Slots(Scan(p, [Text(prefix), Int, Text("."), Int, Text("."), Int]), 3) == Three(p, prefix)
  {
    assert [Text(prefix), Int, Text("."), Int, Text("."), Int][1..] == [Int, Text("."), Int, Text("."), Int];
    assert [Int, Text("."), Int, Text("."), Int][1..] == [Text("."), Int, Text("."), Int];
    assert [Text("."), Int, Text("."), Int][1..] == [Int, Text("."), Int];
    assert [Int, Text("."), Int][1..] == [Text("."), Int];
    if prefix <= p && ScanInt(p[|prefix|..]).Number? {
      var a := ScanInt(p[|prefix|..]);
      DotIs(a.rest);
      if DotNumber(a) {
        var b := ScanInt(a.rest[1..]);
        ScansOne(b.rest, ".");
        DotIs(b.rest);
      }
    }
  }

  lemma ParsedIs(p: string)
    ensures IsParsed(p, KindOf(p), ValuesOf(p))
  {
    ScansOne(p, "gfx_");
    ScansOne(p, "sdma");
    ScansOne(p, "vce");
    ScansOne(p, "uvd_");
    ScansTwo(p, "uvd_enc_");
    ScansThree(p, "comp_");
    ScansThree(p, "kiq_");
  }

  // strncpy into a buffer of RING_NAME_SIZE.
  function Cut(s: string): string {
    if |s| <= RING_NAME_SIZE then s else s[..RING_NAME_SIZE]
  }

  class AmdGpuRing {
    var kind: RingType
    var name: string
    var shortname: string
    var values: Values

    constructor ()
      ensures kind == Unknown
    {
      kind, name, shortname, values := Unknown, "", "", Values(0, 0, 0);
    }

    // The caller has seen the prefix. A part behind it that fills its buffer has no terminator,
    // but values lies behind that buffer, and -1 has no byte that a directive could match.
    method ParseRingInfo(fullname: string)
      requires |PREFIX| <= |fullname|
      modifies this
      ensures shortname == Cut(fullname[|PREFIX|..]) && name == Cut(fullname)
      ensures kind == KindOf(shortname) && values == ValuesOf(shortname)
      ensures IsParsed(shortname, kind, values)
      ensures |fullname| <= 50 ==> name == fullname
      ensures |fullname| <= 62 ==> shortname == fullname[12..]
    {
      ParsedIs(Cut(fullname[|PREFIX|..]));
      values := Values(-1, -1, -1);
      name := Cut(fullname);
      shortname := Cut(fullname[|PREFIX|..]);
      ParseShortName();
    }

    // Lines 28-70.
    method ParseShortName()
      requires values == Values(-1, -1, -1)
      modifies this`kind, this`values
      ensures kind == KindOf(shortname) && values == ValuesOf(shortname)
    {
      var p := shortname;
      if "gfx" <= p {
        kind := Gfx;
        var numbers := Scan(p, GFX_FORMAT);
        if |numbers| == 1 { values := Values(numbers[0], -1, -1); }
      } else if "sdma" <= p {
        kind := Sdma;
        var numbers := Scan(p, SDMA_FORMAT);
        if |numbers| == 1 { values := Values(numbers[0], -1, -1); }
      } else if "comp" <= p {
        kind := Comp;
        var numbers := Scan(p, COMP_FORMAT);
        if |numbers| == 3 { values := Values(numbers[0], numbers[1], numbers[2]); }
      } else if "uvd" <= p {
        kind := Uvd;
        var numbers := Scan(p, UVD_FORMAT);
        if |numbers| == 1 {
          values := Values(numbers[0], -1, -1);
        } else {
          numbers := Scan(p, UVD_ENC_FORMAT);
          if |numbers| == 2 { values := Values(numbers[0], numbers[1], -1); }
        }
      } else if "kiq" <= p {
        kind := Kiq;
        var numbers := Scan(p, KIQ_FORMAT);
        if |numbers| == 3 { values := Values(numbers[0], numbers[1], numbers[2]); }
      } else if "vce" <= p {
        kind := Vce;
        var numbers := Scan(p, VCE_FORMAT);
        if |numbers| == 1 { values := Values(numbers[0], -1, -1); }
      } else {
        kind := Unknown;
      }
    }
  }

  function KindOf(p: string): RingType {
    if "gfx" <= p then Gfx
    else if "sdma" <= p then Sdma
    else if "comp" <= p then Comp
    else if "uvd" <= p then Uvd
    else if "kiq" <= p then Kiq
    else if "vce" <= p then Vce
    else Unknown
  }

  function ValuesOf(p: string): Values {
    match KindOf(p)
    case Gfx => Slots(Scan(p, GFX_FORMAT), 1)
    case Sdma => Slots(Scan(p, SDMA_FORMAT), 1)
    case Vce => Slots(Scan(p, VCE_FORMAT), 1)
    case Comp => Slots(Scan(p, COMP_FORMAT), 3)
    case Kiq => Slots(Scan(p, KIQ_FORMAT), 3)
    case Uvd =>
      var plain := Scan(p, UVD_FORMAT);
      if |plain| == 1 then Slots(plain, 1) else Slots(Scan(p, UVD_ENC_FORMAT), 2)
    case Unknown => Values(-1, -1, -1)
  }

  // ---------- the names that are printed ----------

  datatype Ring =
    | GfxRing(a: NatInt32)
    | SdmaRing(a: NatInt32)
    | VceRing(a: NatInt32)
    | UvdRing(a: NatInt32)
    | UvdEncRing(a: NatInt32, b: NatInt32)
    | CompRing(a: NatInt32, b: NatInt32, c: NatInt32)
    | KiqRing(a: NatInt32, b: NatInt32, c: NatInt32)

  function Print(r: Ring): string {
    match r
    case GfxRing(a) => "gfx_" + Numeral(a)
    case SdmaRing(a) => "sdma" + Numeral(a)
    case VceRing(a) => "vce" + Numeral(a)
    case UvdRing(a) => "uvd_" + Numeral(a)
    case UvdEncRing(a, b) => "uvd_enc_" + (Numeral(a) + ("." + Numeral(b)))
    case CompRing(a, b, c) => "comp_" + (Numeral(a) + ("." + (Numeral(b) + ("." + Numeral(c)))))
    case KiqRing(a, b, c) => "kiq_" + (Numeral(a) + ("." + (Numeral(b) + ("." + Numeral(c)))))
  }

  // The kind and the numbers of a ring, unused slots -1.
  function Meaning(r: Ring): (RingType, Values) {
    match r
    case GfxRing(a) => (Gfx, Values(a, -1, -1))
    case SdmaRing(a) => (Sdma, Values(a, -1, -1))
    case VceRing(a) => (Vce, Values(a, -1, -1))
    case UvdRing(a) => (Uvd, Values(a, -1, -1))
    case UvdEncRing(a, b) => (Uvd, Values(a, b, -1))
    case CompRing(a, b, c) => (Comp, Values(a, b, c))
    case KiqRing(a, b, c) => (Kiq, Values(a, b, c))
  }

  lemma ScanText(t: string, rest: string, format: seq<Directive>)
    requires format != [] && format[0] == Text(t)
    ensures Scan(t + rest, format) == Scan(rest, format[1..])
  {
  }

  lemma ScanNumber(n: nat, rest: string, format: seq<Directive>)
    requires format != [] && format[0] == Int
    requires rest == [] || !IsDigit(rest[0])
    ensures Scan(Numeral(n) + rest, format) == [n as int] + Scan(rest, format[1..])
  {
    ScanNumeral(n, rest);
  }

  lemma ScanOne(t: string, a: nat)
    ensures Scan(t + Numeral(a), [Text(t), Int]) == [a]
  {
    var f := [Text(t), Int];
    ScanText(t, Numeral(a), f);
    assert f[1..] == [Int];
    assert Numeral(a) + [] == Numeral(a);
    ScanNumber(a, [], [Int]);
  }

  lemma ScanTwo(t: string, a: nat, b: nat)
    ensures Scan(t + (Numeral(a) + ("." + Numeral(b))), [Text(t), Int, Text("."), Int]) == [a, b]
  {
    var f := [Text(t), Int, Text("."), Int];
    assert f[1..] == [Int, Text("."), Int] && f[1..][1..] == [Text("."), Int];
    ScanText(t, Numeral(a) + ("." + Numeral(b)), f);
    ScanNumber(a, "." + Numeral(b), f[1..]);
    ScanOne(".", b);
  }

  lemma ScanThree(t: string, a: nat, b: nat, c: nat)
    ensures Scan(t + (Numeral(a) + ("." + (Numeral(b) + ("." + Numeral(c))))),
                 [Text(t), Int, Text("."), Int, Text("."), Int]) == [a, b, c]
  {
    var f := [Text(t), Int, Text("."), Int, Text("."), Int];
    var tail := "." + (Numeral(b) + ("." + Numeral(c)));
    assert f[1..][1..] == [Text("."), Int, Text("."), Int];
    ScanText(t, Numeral(a) + tail, f);
    ScanNumber(a, tail, f[1..]);
    ScanTwo(".", b, c);
  }

  lemma PrintedKind(r: Ring)
    ensures KindOf(Print(r)) == Meaning(r).0
  {
    var p := Print(r);
    match r
    case GfxRing(a) => assert p[..3] == "gfx";
    case SdmaRing(a) => assert p[0] == 's' && p[..4] == "sdma";
    case VceRing(a) => assert p[0] == 'v' && p[..3] == "vce";
    case UvdRing(a) => assert p[0] == 'u' && p[..3] == "uvd";
    case UvdEncRing(a, b) => assert p[0] == 'u' && p[..3] == "uvd";
    case CompRing(a, b, c) => assert p[0] == 'c' && p[..4] == "comp";
    case KiqRing(a, b, c) => assert p[0] == 'k' && p[..3] == "kiq";
  }

  // The encoder ring's name does not read as a plain one.
  lemma EncoderIsNotPlain(rest: string)
    ensures Scan("uvd_enc_" + rest, [Text("uvd_"), Int]) == []
  {
  }

  lemma ParseOneNumber(r: Ring)
    requires r.GfxRing? || r.SdmaRing? || r.VceRing? || r.UvdRing?
    ensures (KindOf(Print(r)), ValuesOf(Print(r))) == Meaning(r)
  {
    PrintedKind(r);
    match r
    case GfxRing(a) => ScanOne("gfx_", a);
    case SdmaRing(a) => ScanOne("sdma", a);
    case VceRing(a) => ScanOne("vce", a);
    case UvdRing(a) => ScanOne("uvd_", a);
  }

  lemma ParseTwoNumbers(a: NatInt32, b: NatInt32)
    ensures var r := UvdEncRing(a, b); (KindOf(Print(r)), ValuesOf(Print(r))) == Meaning(r)
  {
    PrintedKind(UvdEncRing(a, b));
    EncoderIsNotPlain(Numeral(a) + ("." + Numeral(b)));
    ScanTwo("uvd_enc_", a, b);
  }

  lemma ThreeSlots(p: string, a: nat, b: nat, c: nat)
    ensures KindOf(p) == Comp && Scan(p, COMP_FORMAT) == [a, b, c] ==> ValuesOf(p) == Values(a, b, c)
    ensures KindOf(p) == Kiq && Scan(p, KIQ_FORMAT) == [a, b, c] ==> ValuesOf(p) == Values(a, b, c)
  {
  }

  lemma ScanComp(p: string, a: nat, b: nat, c: nat)
    requires p == "comp_" + (Numeral(a) + ("." + (Numeral(b) + ("." + Numeral(c)))))
    ensures Scan(p, COMP_FORMAT) == [a, b, c]
  {
    ScanThree("comp_", a, b, c);
  }

  lemma ScanKiq(p: string, a: nat, b: nat, c: nat)
    requires p == "kiq_" + (Numeral(a) + ("." + (Numeral(b) + ("." + Numeral(c)))))
    ensures Scan(p, KIQ_FORMAT) == [a, b, c]
  {
    ScanThree("kiq_", a, b, c);
  }

  lemma ParseThreeNumbers(r: Ring)
    requires r.CompRing? || r.KiqRing?
    ensures (KindOf(Print(r)), ValuesOf(Print(r))) == Meaning(r)
  {
    var p := Print(r);
    PrintedKind(r);
    if r.CompRing? { ScanComp(p, r.a, r.b, r.c); } else { ScanKiq(p, r.a, r.b, r.c); }
    ThreeSlots(p, r.a, r.b, r.c);
  }

  // Parsing undoes printing.
  lemma ParsePrint(r: Ring)
    ensures (KindOf(Print(r)), ValuesOf(Print(r))) == Meaning(r)
  {
    match r
    case UvdEncRing(a, b) => ParseTwoNumbers(a, b);
    case CompRing(_, _, _) => ParseThreeNumbers(r);
    case KiqRing(_, _, _) => ParseThreeNumbers(r);
    case _ => ParseOneNumber(r);
  }

  // Every printed name fits both buffers, prefix included.
  lemma PrintFits(r: Ring)
    ensures |PREFIX| + |Print(r)| < RING_NAME_SIZE
  {
    assert Power10(10) == 10000000000;
    NumeralLength(r.a, 10);
    if r.UvdEncRing? || r.CompRing? || r.KiqRing? { NumeralLength(r.b, 10); }
    if r.CompRing? || r.KiqRing? { NumeralLength(r.c, 10); }
  }

  // No two rings parse alike.
  lemma ParsedRingsDiffer(r: Ring, s: Ring)
    ensures r != s ==> (KindOf(Print(r)), ValuesOf(Print(r))) != (KindOf(Print(s)), ValuesOf(Print(s)))
  {
    ParsePrint(r);
    ParsePrint(s);
    MeaningsDiffer(r, s);
  }

  lemma MeaningsDiffer(r: Ring, s: Ring)
    ensures r != s ==> Meaning(r) != Meaning(s)
  {
  }

  // The whole way: the driver's file name for a ring, through the parser.
  method ParseDirectoryEntry(r: Ring) returns (ring: AmdGpuRing)
    ensures (ring.kind, ring.values) == Meaning(r)
    ensures ring.name == "amdgpu_ring_" + Print(r) && ring.shortname == Print(r)
  {
    PrintFits(r);
    ParsePrint(r);
    ring := new AmdGpuRing();
    assert (PREFIX + Print(r))[|PREFIX|..] == Print(r);
    ring.ParseRingInfo(PREFIX + Print(r));
  }
}
