/**
 * The assembler's mnemonic-to-bits tables for the three fields of a Hack
 * C-instruction (section 6.2.2 of The Elements of Computing Systems).
 * A Java `null` argument is `None`.
 */
module Code {
  import opened Base
  import opened Text

  function Bit(b: bool): (r: string)
    ensures |r| == 1 && AllBits(r) && (r[0] == '1' <==> b)
  {
    if b then "1" else "0"
  }

  /**
   * `dest`: three bits d1 d2 d3 telling whether A, D and M are written; each
   * bit is set exactly when its letter occurs in the mnemonic.
   */
  function Dest(mnemonic: Option<string>): (r: string)
    ensures |r| == 3 && AllBits(r)
    ensures mnemonic.None? || mnemonic.value == [] ==> r == "000"
    ensures mnemonic.Some? ==>
      && (r[0] == '1' <==> 'A' in mnemonic.value)
      && (r[1] == '1' <==> 'D' in mnemonic.value)
      && (r[2] == '1' <==> 'M' in mnemonic.value)
  {
    if mnemonic.None? || mnemonic.value == [] then "000"
    else
      var m := mnemonic.value;
      Bit('A' in m) + Bit('D' in m) + Bit('M' in m)
  }

  /** Two dest mnemonics with the same letters encode alike, whatever their order or repetitions. */
  lemma DestLetterOrder(x: string, y: string)
    requires forall c :: c in "ADM" ==> (c in x <==> c in y)
    ensures Dest(Some(x)) == Dest(Some(y))
  {
    assert 'A' in "ADM" && 'D' in "ADM" && 'M' in "ADM";
    if x == [] || y == [] {
      assert Dest(Some(x)) == "000" && Dest(Some(y)) == "000";
    }
  }

  /** The test expectations for `dest`. */
  lemma DestExamples()
    ensures Dest(None) == "000" && Dest(Some("")) == "000"
    ensures Dest(Some("M")) == "001" && Dest(Some("D")) == "010" && Dest(Some("MD")) == "011"
    ensures Dest(Some("A")) == "100" && Dest(Some("AM")) == "101" && Dest(Some("AD")) == "110"
    ensures Dest(Some("AMD")) == "111"
  {
  }

  /**
   * The 28 computations a C-instruction can name: 18 that read A (a = 0) and
   * 10 that read M (a = 1).
   */
  datatype CompForm =
    | Zero | One | MinusOne | RegD | RegA | NotD | NotA | NegD | NegA
    | DPlusOne | APlusOne | DMinusOne | AMinusOne | DPlusA | DMinusA | AMinusD | DAndA | DOrA
    | RegM | NotM | NegM | MPlusOne | MMinusOne | DPlusM | DMinusM | MMinusD | DAndM | DOrM

  /** The assembly spelling of each form. */
  function Mnemonic(f: CompForm): string {
    match f
    case Zero => "0"
    case One => "1"
    case MinusOne => "-1"
    case RegD => "D"
    case RegA => "A"
    case NotD => "!D"
    case NotA => "!A"
    case NegD => "-D"
    case NegA => "-A"
    case DPlusOne => "D+1"
    case APlusOne => "A+1"
    case DMinusOne => "D-1"
    case AMinusOne => "A-1"
    case DPlusA => "D+A"
    case DMinusA => "D-A"
    case AMinusD => "A-D"
    case DAndA => "D&A"
    case DOrA => "D|A"
    case RegM => "M"
    case NotM => "!M"
    case NegM => "-M"
    case MPlusOne => "M+1"
    case MMinusOne => "M-1"
    case DPlusM => "D+M"
    case DMinusM => "D-M"
    case MMinusD => "M-D"
    case DAndM => "D&M"
    case DOrM => "D|M"
  }

  /** The table: each form's seven-bit code a c1..c6, as a number (its bits in the comment). */
  function CompCode(f: CompForm): nat {
    match f
    case Zero => 42  // 0101010
    case One => 63  // 0111111
    case MinusOne => 58  // 0111010
    case RegD => 12  // 0001100
    case RegA => 48  // 0110000
    case NotD => 13  // 0001101
    case NotA => 49  // 0110001
    case NegD => 15  // 0001111
    case NegA => 51  // 0110011
    case DPlusOne => 31  // 0011111
    case APlusOne => 55  // 0110111
    case DMinusOne => 14  // 0001110
    case AMinusOne => 50  // 0110010
    case DPlusA => 2  // 0000010
    case DMinusA => 19  // 0010011
    case AMinusD => 7  // 0000111
    case DAndA => 0  // 0000000
    case DOrA => 21  // 0010101
    case RegM => 112  // 1110000
    case NotM => 113  // 1110001
    case NegM => 115  // 1110011
    case MPlusOne => 119  // 1110111
    case MMinusOne => 114  // 1110010
    case DPlusM => 66  // 1000010
    case DMinusM => 83  // 1010011
    case MMinusD => 71  // 1000111
    case DAndM => 64  // 1000000
    case DOrM => 85  // 1010101
  }

  /**
   * The two switch statements of `comp`, A forms first: the form spelled `m`,
   * if any.
   */
  function ParseComp(m: string): (r: Option<CompForm>)
    ensures r.Some? ==> Mnemonic(r.value) == m
  {
    match ParseCompA(m)
    case Some(f) => Some(f)
    case None => ParseCompM(m)
  }

  /** The first switch: the forms that read A. */
  function ParseCompA(m: string): (r: Option<CompForm>)
    ensures r.Some? ==> Mnemonic(r.value) == m
  {
    match m
    case "0" => Some(Zero)
    case "1" => Some(One)
    case "-1" => Some(MinusOne)
    case "D" => Some(RegD)
    case "A" => Some(RegA)
    case "!D" => Some(NotD)
    case "!A" => Some(NotA)
    case "-D" => Some(NegD)
    case "-A" => Some(NegA)
    case "D+1" => Some(DPlusOne)
    case "A+1" => Some(APlusOne)
    case "D-1" => Some(DMinusOne)
    case "A-1" => Some(AMinusOne)
    case "D+A" => Some(DPlusA)
    case "D-A" => Some(DMinusA)
    case "A-D" => Some(AMinusD)
    case "D&A" => Some(DAndA)
    case "D|A" => Some(DOrA)
    case _ => None
  }

  /** The second switch: the forms that read M. */
  function ParseCompM(m: string): (r: Option<CompForm>)
    ensures r.Some? ==> Mnemonic(r.value) == m
  {
    match m
    case "M" => Some(RegM)
    case "!M" => Some(NotM)
    case "-M" => Some(NegM)
    case "M+1" => Some(MPlusOne)
    case "M-1" => Some(MMinusOne)
    case "D+M" => Some(DPlusM)
    case "D-M" => Some(DMinusM)
    case "M-D" => Some(MMinusD)
    case "D&M" => Some(DAndM)
    case "D|M" => Some(DOrM)
    case _ => None
  }

  /** Every form's spelling is recognised as that form: the partner of `Mnemonic`. */
  lemma ParseMnemonic(f: CompForm)
    ensures ParseComp(Mnemonic(f)) == Some(f)
  {
    match f
    case Zero | One | MinusOne | RegD | RegA | NotD | NotA => ParseMnemonicGroup1(f);
    case NegD | NegA | DPlusOne | APlusOne | DMinusOne | AMinusOne => ParseMnemonicGroup2(f);
    case DPlusA | DMinusA | AMinusD | DAndA | DOrA => ParseMnemonicGroup3(f);
    case RegM | NotM | NegM | MPlusOne | MMinusOne => ParseMnemonicGroup4(f);
    case DPlusM | DMinusM | MMinusD | DAndM | DOrM => ParseMnemonicGroup5(f);
  }

  lemma ParseMnemonicGroup1(f: CompForm)
    requires f.Zero? || f.One? || f.MinusOne? || f.RegD? || f.RegA? || f.NotD? || f.NotA?
    ensures ParseComp(Mnemonic(f)) == Some(f)
  {
  }

  lemma ParseMnemonicGroup2(f: CompForm)
    requires f.NegD? || f.NegA? || f.DPlusOne? || f.APlusOne? || f.DMinusOne? || f.AMinusOne?
    ensures ParseComp(Mnemonic(f)) == Some(f)
  {
  }

  lemma ParseMnemonicGroup3(f: CompForm)
    requires f.DPlusA? || f.DMinusA? || f.AMinusD? || f.DAndA? || f.DOrA?
    ensures ParseComp(Mnemonic(f)) == Some(f)
  {
  }

  lemma ParseMnemonicGroup4(f: CompForm)
    requires f.RegM? || f.NotM? || f.NegM? || f.MPlusOne? || f.MMinusOne?
    ensures ParseComp(Mnemonic(f)) == Some(f)
  {
  }

  lemma ParseMnemonicGroup5(f: CompForm)
    requires f.DPlusM? || f.DMinusM? || f.MMinusD? || f.DAndM? || f.DOrM?
    ensures ParseComp(Mnemonic(f)) == Some(f)
  {
  }

  /** A mnemonic is accepted exactly when it spells one of the 28 forms. */
  lemma ParseCompDomain(m: string)
    ensures ParseComp(m).Some? <==> exists f :: Mnemonic(f) == m
  {
    if f :| Mnemonic(f) == m {
      ParseMnemonic(f);
    }
  }

  /** Every code fits in seven bits; the a-bit (64) is set exactly for the forms that read M. */
  lemma CompCodeRange(f: CompForm)
    ensures CompCode(f) < 128
    ensures CompCode(f) >= 64 <==> 'M' in Mnemonic(f)
  {
  }

  /**
   * `comp`: the seven bits a c1..c6 of a mnemonic; `null`, "" and any string
   * in neither switch throw IllegalArgumentException.
   */
  function Comp(mnemonic: Option<string>): (r: Result<string>)
    ensures r.Ok? <==> mnemonic.Some? && ParseComp(mnemonic.value).Some?
    ensures r.Err? ==> r.failure.IllegalArgument?
  {
    if mnemonic.None? || mnemonic.value == [] then Err(IllegalArgument(""))
    else match ParseComp(mnemonic.value)
      case None => Err(IllegalArgument(mnemonic.value))
      case Some(f) => Ok(FixedBits(CompCode(f), 7))
  }

  /** A successful `comp` is seven bits whose leading a-bit is set exactly for the forms that read M. */
  lemma CompShape(mnemonic: Option<string>)
    requires Comp(mnemonic).Ok?
    ensures |Comp(mnemonic).value| == 7 && AllBits(Comp(mnemonic).value)
    ensures Comp(mnemonic).value[0] == '1' <==> 'M' in mnemonic.value
  {
    var f := ParseComp(mnemonic.value).value;
    CompCodeRange(f);
    Pow2Seven();
    FixedBitsLeading(CompCode(f), 7);
  }

  lemma Pow2Seven()
    ensures Pow2(6) == 64 && Pow2(7) == 128
  {
    assert Pow2(3) == 8;
  }

  /** Reading a code back to its form: the table inverted. */
  function DecodeComp(code: nat): Option<CompForm> {
    match code
    case 42 => Some(Zero)
    case 63 => Some(One)
    case 58 => Some(MinusOne)
    case 12 => Some(RegD)
    case 48 => Some(RegA)
    case 13 => Some(NotD)
    case 49 => Some(NotA)
    case 15 => Some(NegD)
    case 51 => Some(NegA)
    case 31 => Some(DPlusOne)
    case 55 => Some(APlusOne)
    case 14 => Some(DMinusOne)
    case 50 => Some(AMinusOne)
    case 2 => Some(DPlusA)
    case 19 => Some(DMinusA)
    case 7 => Some(AMinusD)
    case 0 => Some(DAndA)
    case 21 => Some(DOrA)
    case 112 => Some(RegM)
    case 113 => Some(NotM)
    case 115 => Some(NegM)
    case 119 => Some(MPlusOne)
    case 114 => Some(MMinusOne)
    case 66 => Some(DPlusM)
    case 83 => Some(DMinusM)
    case 71 => Some(MMinusD)
    case 64 => Some(DAndM)
    case 85 => Some(DOrM)
    case _ => None
  }

  /** No two forms share a code. */
  lemma DecodeCompCode(f: CompForm)
    ensures DecodeComp(CompCode(f)) == Some(f)
  {
  }

  /** `comp` is injective: two mnemonics with the same code are the same mnemonic. */
  lemma CompInjective(x: string, y: string)
    requires Comp(Some(x)).Ok? && Comp(Some(x)) == Comp(Some(y))
    ensures x == y
  {
    var f := ParseComp(x).value;
    var g := ParseComp(y).value;
    CompCodeRange(f);
    CompCodeRange(g);
    Pow2Seven();
    FixedBitsInjective(CompCode(f), CompCode(g), 7);
    DecodeCompCode(f);
    DecodeCompCode(g);
  }

  /** `s` with every 'A' replaced by 'M'. */
  function AToM(s: string): (r: string)
    ensures |r| == |s|
    ensures forall i :: 0 <= i < |s| ==> r[i] == (if s[i] == 'A' then 'M' else s[i])
  {
    seq(|s|, i requires 0 <= i < |s| => if s[i] == 'A' then 'M' else s[i])
  }

  /** The form that reads M where `f` reads A, for the ten A forms that have one. */
  function MTwin(f: CompForm): Option<CompForm> {
    match f
    case RegA => Some(RegM)
    case NotA => Some(NotM)
    case NegA => Some(NegM)
    case APlusOne => Some(MPlusOne)
    case AMinusOne => Some(MMinusOne)
    case DPlusA => Some(DPlusM)
    case DMinusA => Some(DMinusM)
    case AMinusD => Some(MMinusD)
    case DAndA => Some(DAndM)
    case DOrA => Some(DOrM)
    case _ => None
  }

  /**
   * The twins are exactly the forms that mention A; a twin is spelled with A
   * read as M, and its code is its A form's code plus the a-bit.
   */
  lemma MTwinFacts(f: CompForm)
    ensures MTwin(f).Some? <==> 'A' in Mnemonic(f)
    ensures MTwin(f).Some? ==> CompCode(MTwin(f).value) == CompCode(f) + 64
    ensures MTwin(f).Some? ==> Mnemonic(MTwin(f).value) == AToM(Mnemonic(f))
  {
    match f
    case RegA | NotA | NegA | APlusOne | AMinusOne => MTwinUnary(f);
    case DPlusA | DMinusA | AMinusD | DAndA | DOrA => MTwinBinary(f);
    case _ =>
  }

  lemma MTwinUnary(f: CompForm)
    requires f.RegA? || f.NotA? || f.NegA? || f.APlusOne? || f.AMinusOne?
    ensures 'A' in Mnemonic(f) && MTwin(f).Some?
    ensures CompCode(MTwin(f).value) == CompCode(f) + 64
    ensures Mnemonic(MTwin(f).value) == AToM(Mnemonic(f))
  {
  }

  lemma MTwinBinary(f: CompForm)
    requires f.DPlusA? || f.DMinusA? || f.AMinusD? || f.DAndA? || f.DOrA?
    ensures 'A' in Mnemonic(f) && MTwin(f).Some?
    ensures CompCode(MTwin(f).value) == CompCode(f) + 64
    ensures Mnemonic(MTwin(f).value) == AToM(Mnemonic(f))
  {
  }

  /** Every form that reads M is the twin of a form that reads A. */
  lemma MTwinsCoverM(g: CompForm)
    requires 'M' in Mnemonic(g)
    ensures exists f :: MTwin(f) == Some(g)
  {
    match g
    case RegM => assert MTwin(RegA) == Some(g);
    case NotM => assert MTwin(NotA) == Some(g);
    case NegM => assert MTwin(NegA) == Some(g);
    case MPlusOne => assert MTwin(APlusOne) == Some(g);
    case MMinusOne => assert MTwin(AMinusOne) == Some(g);
    case DPlusM => assert MTwin(DPlusA) == Some(g);
    case DMinusM => assert MTwin(DMinusA) == Some(g);
    case MMinusD => assert MTwin(AMinusD) == Some(g);
    case DAndM => assert MTwin(DAndA) == Some(g);
    case DOrM => assert MTwin(DOrA) == Some(g);
  }

  /**
   * Reading M instead of A changes only the a-bit: for a mnemonic `comp`
   * accepts that mentions A, the same text with A read as M is accepted too,
   * and its code is the A form's code with the leading 0 turned into 1.
   */
  lemma CompMTwin(a: string)
    requires Comp(Some(a)).Ok? && 'A' in a
    ensures Comp(Some(AToM(a))).Ok?
    ensures Comp(Some(a)).value[0] == '0'
    ensures Comp(Some(AToM(a))).value == "1" + Comp(Some(a)).value[1..]
  {
    var f := ParseComp(a).value;
    MTwinFacts(f);
    var g := MTwin(f).value;
    ParseMnemonic(g);
    CompShape(Some(a));
    CompCodeRange(f);
    Pow2Seven();
    FixedBitsSetLeading(CompCode(f), 7);
  }

  /** The test expectations for `comp`: null, "" and an unknown form are rejected. */
  lemma CompRejects()
    ensures Comp(None) == Err(IllegalArgument(""))
    ensures Comp(Some("")) == Err(IllegalArgument(""))
    ensures Comp(Some("M+D")) == Err(IllegalArgument("M+D"))
    ensures Comp(Some("X")) == Err(IllegalArgument("X"))
  {
  }

  /** The test expectations for `comp` on accepted forms. */
  lemma CompExampleZero()
    ensures Comp(Some("0")) == Ok("0101010")
  {
    assert FixedBits(42, 7) == "0101010";
  }

  lemma CompExampleDPlusOne()
    ensures Comp(Some("D+1")) == Ok("0011111")
  {
    assert FixedBits(31, 7) == "0011111";
  }

  lemma CompExampleRegM()
    ensures Comp(Some("M")) == Ok("1110000")
  {
    assert FixedBits(112, 7) == "1110000";
  }

  lemma CompExampleDOrM()
    ensures Comp(Some("D|M")) == Ok("1010101")
  {
    assert FixedBits(85, 7) == "1010101";
  }

  /** The comps of the assembler's symbol test: `D` and `D-M`. */
  lemma CompExampleD()
    ensures Comp(Some("D")) == Ok("0001100")
  {
    assert FixedBits(12, 7) == "0001100";
  }

  lemma CompExampleDMinusM()
    ensures Comp(Some("D-M")) == Ok("1010011")
  {
    assert FixedBits(83, 7) == "1010011";
  }

  /** The comps of the assembler's simple test: `A` and `D+A`. */
  lemma CompExampleA()
    ensures Comp(Some("A")) == Ok("0110000")
  {
    assert FixedBits(48, 7) == "0110000";
  }

  lemma CompExampleDPlusA()
    ensures Comp(Some("D+A")) == Ok("0000010")
  {
    assert FixedBits(2, 7) == "0000010";
  }

  const JumpMnemonics: seq<string> := ["JGT", "JEQ", "JGE", "JLT", "JNE", "JLE", "JMP"]

  /** `jump`: j1 j2 j3 = jump if negative, zero, positive; "000" for null, "" and unknown mnemonics. */
  function Jump(mnemonic: Option<string>): (r: string)
    ensures |r| == 3 && AllBits(r)
    ensures r != "000" <==> mnemonic.Some? && mnemonic.value in JumpMnemonics
  {
    if mnemonic.None? || mnemonic.value == [] then "000"
    else match mnemonic.value
      case "JGT" => "001"
      case "JEQ" => "010"
      case "JGE" => "011"
      case "JLT" => "100"
      case "JNE" => "101"
      case "JLE" => "110"
      case "JMP" => "111"
      case _ => "000"
  }

  /** Bit j1 is "jump if negative", j2 "if zero", j3 "if positive", as the mnemonic's letters say. */
  lemma JumpBitsMeaning(m: string)
    requires m in JumpMnemonics
    ensures Jump(Some(m))[0] == '1' <==> m in ["JLT", "JNE", "JLE", "JMP"]
    ensures Jump(Some(m))[1] == '1' <==> m in ["JEQ", "JGE", "JLE", "JMP"]
    ensures Jump(Some(m))[2] == '1' <==> m in ["JGT", "JGE", "JNE", "JMP"]
  {
  }

  /** The seven jump mnemonics get seven distinct codes. */
  lemma JumpInjective(x: string, y: string)
    requires x in JumpMnemonics && y in JumpMnemonics
    requires Jump(Some(x)) == Jump(Some(y))
    ensures x == y
  {
  }

  /** The test expectations for `jump`. */
  lemma JumpExamples()
    ensures Jump(None) == "000" && Jump(Some("")) == "000" && Jump(Some("XXX")) == "000"
    ensures Jump(Some("JGT")) == "001" && Jump(Some("JEQ")) == "010" && Jump(Some("JMP")) == "111"
  {
  }
}
