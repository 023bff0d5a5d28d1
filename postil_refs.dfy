/**
 * The older reference normaliser of the postil parser and its extractor of
 * references from the parenthetical citation under a postil's title, e.g.
 * "(Ned. I. postní: Mat. 4, 1—11.)" gives the liturgical label
 * "Ned. I. postní" and the reference "Mt 4,1-11".
 *
 * The normaliser differs from the shared one of module BiblicalRefs: it has
 * its own alias table, takes only "1" and "2" as digit prefixes, repairs a
 * leading "1an" as well as "1z", and drops no trailing dot before matching.
 */
module PostilRefs {
  import opened Text
  import BiblicalRefs

  /**
   * The parser's alias table `BOOK_ALIASES`: its keys, with and without the
   * dot, grouped by their first character (the keys are distinct), and the
   * abbreviation each stands for. The table has no empty value, so the `||`
   * fallbacks of the lookup only fire when a key is absent.
   */
  function OldAlias(key: string): (r: Option<string>)
    ensures r.Some? ==> r.value != []
  {
    if key == [] then None
    else match key[0]
    case 'm' => (
      match key
      case "mat" => Some("Mt")
      case "mat." => Some("Mt")
      case "mt" => Some("Mt")
      case "mt." => Some("Mt")
      case "mk" => Some("Mk")
      case "mk." => Some("Mk")
      case "mar" => Some("Mk")
      case "mar." => Some("Mk")
      case "mich" => Some("Mi")
      case "mich." => Some("Mi")
      case "mi" => Some("Mi")
      case "mal" => Some("Mal")
      case "mal." => Some("Mal")
      case "mojž" => Some("Mojž")
      case "mojž." => Some("Mojž")
      case "mak" => Some("Mak")
      case "mak." => Some("Mak")
      case "mudr" => Some("Mdr")
      case "mudr." => Some("Mdr")
      case _ => None)
    case 'l' => (
      match key
      case "luk" => Some("Lk")
      case "luk." => Some("Lk")
      case "l" => Some("Lk")
      case "l." => Some("Lk")
      case "lv" => Some("Lv")
      case "lv." => Some("Lv")
      case _ => None)
    case 'j' => (
      match key
      case "jan" => Some("J")
      case "jan." => Some("J")
      case "j" => Some("J")
      case "j." => Some("J")
      case "jer" => Some("Jr")
      case "jer." => Some("Jr")
      case "jr" => Some("Jr")
      case "jak" => Some("Jk")
      case "jak." => Some("Jk")
      case "jk" => Some("Jk")
      case "jud" => Some("Jud")
      case "jud." => Some("Jud")
      case "joz" => Some("Joz")
      case "joz." => Some("Joz")
      case "job" => Some("Job")
      case "job." => Some("Job")
      case "jób" => Some("Job")
      case _ => None)
    case 'i' => (
      match key
      case "iz" => Some("Iz")
      case "iz." => Some("Iz")
      case _ => None)
    case '1' => (
      match key
      case "1z" => Some("Iz")
      case _ => None)
    case 'e' => (
      match key
      case "ez" => Some("Ez")
      case "ez." => Some("Ez")
      case "ef" => Some("Ef")
      case "ef." => Some("Ef")
      case "ex" => Some("Ex")
      case "ex." => Some("Ex")
      case _ => None)
    case 'd' => (
      match key
      case "dan" => Some("Dan")
      case "dan." => Some("Dan")
      case "dt" => Some("Dt")
      case "dt." => Some("Dt")
      case _ => None)
    case 'a' => (
      match key
      case "am" => Some("Am")
      case "am." => Some("Am")
      case _ => None)
    case 'o' => (
      match key
      case "oz" => Some("Oz")
      case "oz." => Some("Oz")
      case _ => None)
    case 'z' => (
      match key
      case "zach" => Some("Za")
      case "zach." => Some("Za")
      case "za" => Some("Za")
      case "zjev" => Some("Zj")
      case "zjev." => Some("Zj")
      case "zj" => Some("Zj")
      case _ => None)
    case 'ř' => (
      match key
      case "řím" => Some("Ř")
      case "řím." => Some("Ř")
      case "ř" => Some("Ř")
      case _ => None)
    case 'k' => (
      match key
      case "kor" => Some("Kor")
      case "kor." => Some("Kor")
      case "kol" => Some("Kol")
      case "kol." => Some("Kol")
      case "kaz" => Some("Kaz")
      case "kaz." => Some("Kaz")
      case "král" => Some("Král")
      case "král." => Some("Král")
      case _ => None)
    case 'g' => (
      match key
      case "gal" => Some("Gal")
      case "gal." => Some("Gal")
      case "gn" => Some("Gn")
      case "gn." => Some("Gn")
      case _ => None)
    case 'f' => (
      match key
      case "fil" => Some("Fp")
      case "fil." => Some("Fp")
      case "fp" => Some("Fp")
      case "filem" => Some("Fm")
      case "filem." => Some("Fm")
      case _ => None)
    case 's' => (
      match key
      case "sol" => Some("Sol")
      case "sol." => Some("Sol")
      case "sk" => Some("Sk")
      case "sk." => Some("Sk")
      case "sd" => Some("Sd")
      case "sd." => Some("Sd")
      case "sam" => Some("Sam")
      case "sam." => Some("Sam")
      case "sir" => Some("Sír")
      case "sir." => Some("Sír")
      case _ => None)
    case 't' => (
      match key
      case "tim" => Some("Tim")
      case "tim." => Some("Tim")
      case "tit" => Some("Tt")
      case "tit." => Some("Tt")
      case _ => None)
    case 'ž' => (
      match key
      case "žid" => Some("Žd")
      case "žid." => Some("Žd")
      case "žd" => Some("Žd")
      case "žalm" => Some("Ž")
      case "žalm." => Some("Ž")
      case "ž" => Some("Ž")
      case _ => None)
    case 'p' => (
      match key
      case "petr" => Some("Pt")
      case "petr." => Some("Pt")
      case "pt" => Some("Pt")
      case "přísl" => Some("Př")
      case "přísl." => Some("Př")
      case "př" => Some("Př")
      case "pís" => Some("Pís")
      case "pís." => Some("Pís")
      case "par" => Some("Pa")
      case "par." => Some("Pa")
      case _ => None)
    case 'n' => (
      match key
      case "nm" => Some("Nm")
      case "nm." => Some("Nm")
      case "neh" => Some("Neh")
      case "neh." => Some("Neh")
      case _ => None)
    case 'r' => (
      match key
      case "rút" => Some("Rt")
      case "rút." => Some("Rt")
      case _ => None)
    case _ => None
  }

  /** The "1an" slip that the OCR fix rewrites: "1an" in either case at a word boundary. */
  predicate JanSlip(t: string) {
    |t| >= 3 && t[0] == '1' && (t[1] == 'a' || t[1] == 'A') && (t[2] == 'n' || t[2] == 'N')
    && (|t| == 3 || !IsWordChar(t[3]))
  }

  /** `/^1an\b/i` replaced by "Jan". */
  function FixLeadingJan(ref: string): (r: string)
    ensures |r| == |ref|
    ensures r != ref <==> JanSlip(ref)
    ensures r != ref ==> r == "Jan" + ref[3..]
  {
    if JanSlip(ref) then "Jan" + ref[3..] else ref
  }

  /** The first steps of the parser's `normalizeBiblicalRef`: trim, then the "1z" and "1an" repairs. */
  function Prepare(raw: string): string {
    FixLeadingJan(BiblicalRefs.FixLeadingIz(Trim(raw)))
  }

  /**
   * `/^([IVX]+\.?|[12])\s+(.+)$/i`: the numeral prefix ("" when there is none
   * or it is unmapped) and the text the book pattern sees.
   */
  function SplitPrefix(ref: string): (string, string) {
    match BiblicalRefs.MatchNumbered(ref, "12")
    case None => ("", ref)
    case Some((num, rest)) => (BiblicalRefs.NumeralPrefix(num), rest)
  }

  /** The key a book token is looked up under: lower case, one trailing dot removed. */
  function BookKey(token: string): string {
    StripTrailingDot(LowerStr(token))
  }

  /** The parser's lookup: the key, then the key with a dot, then the token without its dot. */
  function LookupBook(token: string): (book: string)
  {
    match OldAlias(BookKey(token))
    case Some(b) => b
    case None => (
      match OldAlias(BookKey(token) + ".")
      case Some(b) => b
      case None => StripTrailingDot(token))
  }

  /** The book pattern and the rendering; without a book token, the trimmed input comes back. */
  function FromBook(raw: string, prefix: string, rest: string): string {
    match BiblicalRefs.MatchBook(rest)
    case None => Trim(raw)
    case Some((token, cv)) => BiblicalRefs.Render(prefix, LookupBook(token), BiblicalRefs.NormalizeCv(cv))
  }

  /** The parser's `normalizeBiblicalRef`. */
  function Normalize(raw: string): string {
    var (prefix, rest) := SplitPrefix(Prepare(raw));
    FromBook(raw, prefix, rest)
  }

  // ---------------------------------------------------------------------------
  // Properties of the parser's normaliser
  // ---------------------------------------------------------------------------

  /** Every dotted key of the table stands for what the key without the dot stands for. */
  lemma DottedKeyAgrees(k: string)
    requires OldAlias(k + ".").Some?
    ensures OldAlias(k) == OldAlias(k + ".")
  {
    var d := k + ".";
    assert d[0] == (if k == [] then '.' else k[0]);
    if k == [] {
      assert d == ".";
    } else if k[0] == 'm' {
      DottedKeyAgreesM(k);
    } else if k[0] == 'l' {
      DottedKeyAgreesL(k);
    } else if k[0] == 'j' {
      DottedKeyAgreesJ(k);
    } else if k[0] == 'i' {
      DottedKeyAgreesI(k);
    } else if k[0] == 'e' {
      DottedKeyAgreesE(k);
    } else if k[0] == 'd' {
      DottedKeyAgreesD(k);
    } else if k[0] == 'a' {
      DottedKeyAgreesA(k);
    } else if k[0] == 'o' {
      DottedKeyAgreesO(k);
    } else if k[0] == 'z' {
      DottedKeyAgreesZ(k);
    } else if k[0] == 'ř' {
      DottedKeyAgreesR2(k);
    } else if k[0] == 'k' {
      DottedKeyAgreesK(k);
    } else if k[0] == 'g' {
      DottedKeyAgreesG(k);
    } else if k[0] == 'f' {
      DottedKeyAgreesF(k);
    } else if k[0] == 's' {
      DottedKeyAgreesS(k);
    } else if k[0] == 't' {
      DottedKeyAgreesT(k);
    } else if k[0] == 'ž' {
      DottedKeyAgreesZ2(k);
    } else if k[0] == 'p' {
      DottedKeyAgreesP(k);
    } else if k[0] == 'n' {
      DottedKeyAgreesN(k);
    } else if k[0] == 'r' {
      DottedKeyAgreesR(k);
    } else if k[0] == '1' {
      NoDottedOne(k);
    }
  }

  /** The only key that starts with '1' has no dot. */
  lemma NoDottedOne(k: string)
    requires k != [] && k[0] == '1'
    ensures OldAlias(k + ".").None?
  {
    var d := k + ".";
    assert d[0] == '1' && d[|d| - 1] == '.';
  }

  lemma DottedKeyAgreesM(k: string)
    requires k != [] && k[0] == 'm' && OldAlias(k + ".").Some?
    ensures OldAlias(k) == OldAlias(k + ".")
  {
    var d := k + ".";
    assert k == d[..|k|] && d[0] == k[0];
    if d == "mat." {
      assert |k| == 3 && k[0] == 'm' && k[1] == 'a' && k[2] == 't';
      assert k == "mat";
    } else if d == "mt." {
      assert |k| == 2 && k[0] == 'm' && k[1] == 't';
      assert k == "mt";
    } else if d == "mk." {
      assert |k| == 2 && k[0] == 'm' && k[1] == 'k';
      assert k == "mk";
    } else if d == "mar." {
      assert |k| == 3 && k[0] == 'm' && k[1] == 'a' && k[2] == 'r';
      assert k == "mar";
    } else if d == "mich." {
      assert |k| == 4 && k[0] == 'm' && k[1] == 'i' && k[2] == 'c' && k[3] == 'h';
      assert k == "mich";
    } else if d == "mal." {
      assert |k| == 3 && k[0] == 'm' && k[1] == 'a' && k[2] == 'l';
      assert k == "mal";
    } else if d == "mojž." {
      assert |k| == 4 && k[0] == 'm' && k[1] == 'o' && k[2] == 'j' && k[3] == 'ž';
      assert k == "mojž";
    } else if d == "mak." {
      assert |k| == 3 && k[0] == 'm' && k[1] == 'a' && k[2] == 'k';
      assert k == "mak";
    } else if d == "mudr." {
      assert |k| == 4 && k[0] == 'm' && k[1] == 'u' && k[2] == 'd' && k[3] == 'r';
      assert k == "mudr";
    }
  }

  lemma DottedKeyAgreesL(k: string)
    requires k != [] && k[0] == 'l' && OldAlias(k + ".").Some?
    ensures OldAlias(k) == OldAlias(k + ".")
  {
    var d := k + ".";
    assert k == d[..|k|] && d[0] == k[0];
    if d == "luk." {
      assert |k| == 3 && k[0] == 'l' && k[1] == 'u' && k[2] == 'k';
      assert k == "luk";
    } else if d == "l." {
      assert |k| == 1 && k[0] == 'l';
      assert k == "l";
    } else if d == "lv." {
      assert |k| == 2 && k[0] == 'l' && k[1] == 'v';
      assert k == "lv";
    }
  }

  lemma DottedKeyAgreesJ(k: string)
    requires k != [] && k[0] == 'j' && OldAlias(k + ".").Some?
    ensures OldAlias(k) == OldAlias(k + ".")
  {
    var d := k + ".";
    assert k == d[..|k|] && d[0] == k[0];
    if d == "jan." {
      assert |k| == 3 && k[0] == 'j' && k[1] == 'a' && k[2] == 'n';
      assert k == "jan";
    } else if d == "j." {
      assert |k| == 1 && k[0] == 'j';
      assert k == "j";
    } else if d == "jer." {
      assert |k| == 3 && k[0] == 'j' && k[1] == 'e' && k[2] == 'r';
      assert k == "jer";
    } else if d == "jak." {
      assert |k| == 3 && k[0] == 'j' && k[1] == 'a' && k[2] == 'k';
      assert k == "jak";
    } else if d == "jud." {
      assert |k| == 3 && k[0] == 'j' && k[1] == 'u' && k[2] == 'd';
      assert k == "jud";
    } else if d == "joz." {
      assert |k| == 3 && k[0] == 'j' && k[1] == 'o' && k[2] == 'z';
      assert k == "joz";
    } else if d == "job." {
      assert |k| == 3 && k[0] == 'j' && k[1] == 'o' && k[2] == 'b';
      assert k == "job";
    }
  }

  lemma DottedKeyAgreesI(k: string)
    requires k != [] && k[0] == 'i' && OldAlias(k + ".").Some?
    ensures OldAlias(k) == OldAlias(k + ".")
  {
    var d := k + ".";
    assert k == d[..|k|] && d[0] == k[0];
    if d == "iz." {
      assert |k| == 2 && k[0] == 'i' && k[1] == 'z';
      assert k == "iz";
    }
  }

  lemma DottedKeyAgreesE(k: string)
    requires k != [] && k[0] == 'e' && OldAlias(k + ".").Some?
    ensures OldAlias(k) == OldAlias(k + ".")
  {
    var d := k + ".";
    assert k == d[..|k|] && d[0] == k[0];
    if d == "ez." {
      assert |k| == 2 && k[0] == 'e' && k[1] == 'z';
      assert k == "ez";
    } else if d == "ef." {
      assert |k| == 2 && k[0] == 'e' && k[1] == 'f';
      assert k == "ef";
    } else if d == "ex." {
      assert |k| == 2 && k[0] == 'e' && k[1] == 'x';
      assert k == "ex";
    }
  }

  lemma DottedKeyAgreesD(k: string)
    requires k != [] && k[0] == 'd' && OldAlias(k + ".").Some?
    ensures OldAlias(k) == OldAlias(k + ".")
  {
    var d := k + ".";
    assert k == d[..|k|] && d[0] == k[0];
    if d == "dan." {
      assert |k| == 3 && k[0] == 'd' && k[1] == 'a' && k[2] == 'n';
      assert k == "dan";
    } else if d == "dt." {
      assert |k| == 2 && k[0] == 'd' && k[1] == 't';
      assert k == "dt";
    }
  }

  lemma DottedKeyAgreesA(k: string)
    requires k != [] && k[0] == 'a' && OldAlias(k + ".").Some?
    ensures OldAlias(k) == OldAlias(k + ".")
  {
    var d := k + ".";
    assert k == d[..|k|] && d[0] == k[0];
    if d == "am." {
      assert |k| == 2 && k[0] == 'a' && k[1] == 'm';
      assert k == "am";
    }
  }

  lemma DottedKeyAgreesO(k: string)
    requires k != [] && k[0] == 'o' && OldAlias(k + ".").Some?
    ensures OldAlias(k) == OldAlias(k + ".")
  {
    var d := k + ".";
    assert k == d[..|k|] && d[0] == k[0];
    if d == "oz." {
      assert |k| == 2 && k[0] == 'o' && k[1] == 'z';
      assert k == "oz";
    }
  }

  lemma DottedKeyAgreesZ(k: string)
    requires k != [] && k[0] == 'z' && OldAlias(k + ".").Some?
    ensures OldAlias(k) == OldAlias(k + ".")
  {
    var d := k + ".";
    assert k == d[..|k|] && d[0] == k[0];
    if d == "zach." {
      assert |k| == 4 && k[0] == 'z' && k[1] == 'a' && k[2] == 'c' && k[3] == 'h';
      assert k == "zach";
    } else if d == "zjev." {
      assert |k| == 4 && k[0] == 'z' && k[1] == 'j' && k[2] == 'e' && k[3] == 'v';
      assert k == "zjev";
    }
  }

  lemma DottedKeyAgreesR2(k: string)
    requires k != [] && k[0] == 'ř' && OldAlias(k + ".").Some?
    ensures OldAlias(k) == OldAlias(k + ".")
  {
    var d := k + ".";
    assert k == d[..|k|] && d[0] == k[0];
    if d == "řím." {
      assert |k| == 3 && k[0] == 'ř' && k[1] == 'í' && k[2] == 'm';
      assert k == "řím";
    }
  }

  lemma DottedKeyAgreesK(k: string)
    requires k != [] && k[0] == 'k' && OldAlias(k + ".").Some?
    ensures OldAlias(k) == OldAlias(k + ".")
  {
    var d := k + ".";
    assert k == d[..|k|] && d[0] == k[0];
    if d == "kor." {
      assert |k| == 3 && k[0] == 'k' && k[1] == 'o' && k[2] == 'r';
      assert k == "kor";
    } else if d == "kol." {
      assert |k| == 3 && k[0] == 'k' && k[1] == 'o' && k[2] == 'l';
      assert k == "kol";
    } else if d == "kaz." {
      assert |k| == 3 && k[0] == 'k' && k[1] == 'a' && k[2] == 'z';
      assert k == "kaz";
    } else if d == "král." {
      assert |k| == 4 && k[0] == 'k' && k[1] == 'r' && k[2] == 'á' && k[3] == 'l';
      assert k == "král";
    }
  }

  lemma DottedKeyAgreesG(k: string)
    requires k != [] && k[0] == 'g' && OldAlias(k + ".").Some?
    ensures OldAlias(k) == OldAlias(k + ".")
  {
    var d := k + ".";
    assert k == d[..|k|] && d[0] == k[0];
    if d == "gal." {
      assert |k| == 3 && k[0] == 'g' && k[1] == 'a' && k[2] == 'l';
      assert k == "gal";
    } else if d == "gn." {
      assert |k| == 2 && k[0] == 'g' && k[1] == 'n';
      assert k == "gn";
    }
  }

  lemma DottedKeyAgreesF(k: string)
    requires k != [] && k[0] == 'f' && OldAlias(k + ".").Some?
    ensures OldAlias(k) == OldAlias(k + ".")
  {
    var d := k + ".";
    assert k == d[..|k|] && d[0] == k[0];
    if d == "fil." {
      assert |k| == 3 && k[0] == 'f' && k[1] == 'i' && k[2] == 'l';
      assert k == "fil";
    } else if d == "filem." {
      assert |k| == 5 && k[0] == 'f' && k[1] == 'i' && k[2] == 'l' && k[3] == 'e' && k[4] == 'm';
      assert k == "filem";
    }
  }

  lemma DottedKeyAgreesS(k: string)
    requires k != [] && k[0] == 's' && OldAlias(k + ".").Some?
    ensures OldAlias(k) == OldAlias(k + ".")
  {
    var d := k + ".";
    assert k == d[..|k|] && d[0] == k[0];
    if d == "sol." {
      assert |k| == 3 && k[0] == 's' && k[1] == 'o' && k[2] == 'l';
      assert k == "sol";
    } else if d == "sk." {
      assert |k| == 2 && k[0] == 's' && k[1] == 'k';
      assert k == "sk";
    } else if d == "sd." {
      assert |k| == 2 && k[0] == 's' && k[1] == 'd';
      assert k == "sd";
    } else if d == "sam." {
      assert |k| == 3 && k[0] == 's' && k[1] == 'a' && k[2] == 'm';
      assert k == "sam";
    } else if d == "sir." {
      assert |k| == 3 && k[0] == 's' && k[1] == 'i' && k[2] == 'r';
      assert k == "sir";
    }
  }

  lemma DottedKeyAgreesT(k: string)
    requires k != [] && k[0] == 't' && OldAlias(k + ".").Some?
    ensures OldAlias(k) == OldAlias(k + ".")
  {
    var d := k + ".";
    assert k == d[..|k|] && d[0] == k[0];
    if d == "tim." {
      assert |k| == 3 && k[0] == 't' && k[1] == 'i' && k[2] == 'm';
      assert k == "tim";
    } else if d == "tit." {
      assert |k| == 3 && k[0] == 't' && k[1] == 'i' && k[2] == 't';
      assert k == "tit";
    }
  }

  lemma DottedKeyAgreesZ2(k: string)
    requires k != [] && k[0] == 'ž' && OldAlias(k + ".").Some?
    ensures OldAlias(k) == OldAlias(k + ".")
  {
    var d := k + ".";
    assert k == d[..|k|] && d[0] == k[0];
    if d == "žid." {
      assert |k| == 3 && k[0] == 'ž' && k[1] == 'i' && k[2] == 'd';
      assert k == "žid";
    } else if d == "žalm." {
      assert |k| == 4 && k[0] == 'ž' && k[1] == 'a' && k[2] == 'l' && k[3] == 'm';
      assert k == "žalm";
    }
  }

  lemma DottedKeyAgreesP(k: string)
    requires k != [] && k[0] == 'p' && OldAlias(k + ".").Some?
    ensures OldAlias(k) == OldAlias(k + ".")
  {
    var d := k + ".";
    assert k == d[..|k|] && d[0] == k[0];
    if d == "petr." {
      assert |k| == 4 && k[0] == 'p' && k[1] == 'e' && k[2] == 't' && k[3] == 'r';
      assert k == "petr";
    } else if d == "přísl." {
      assert |k| == 5 && k[0] == 'p' && k[1] == 'ř' && k[2] == 'í' && k[3] == 's' && k[4] == 'l';
      assert k == "přísl";
    } else if d == "pís." {
      assert |k| == 3 && k[0] == 'p' && k[1] == 'í' && k[2] == 's';
      assert k == "pís";
    } else if d == "par." {
      assert |k| == 3 && k[0] == 'p' && k[1] == 'a' && k[2] == 'r';
      assert k == "par";
    }
  }

  lemma DottedKeyAgreesN(k: string)
    requires k != [] && k[0] == 'n' && OldAlias(k + ".").Some?
    ensures OldAlias(k) == OldAlias(k + ".")
  {
    var d := k + ".";
    assert k == d[..|k|] && d[0] == k[0];
    if d == "nm." {
      assert |k| == 2 && k[0] == 'n' && k[1] == 'm';
      assert k == "nm";
    } else if d == "neh." {
      assert |k| == 3 && k[0] == 'n' && k[1] == 'e' && k[2] == 'h';
      assert k == "neh";
    }
  }

  lemma DottedKeyAgreesR(k: string)
    requires k != [] && k[0] == 'r' && OldAlias(k + ".").Some?
    ensures OldAlias(k) == OldAlias(k + ".")
  {
    var d := k + ".";
    assert k == d[..|k|] && d[0] == k[0];
    if d == "rút." {
      assert |k| == 3 && k[0] == 'r' && k[1] == 'ú' && k[2] == 't';
      assert k == "rút";
    }
  }

  /**
   * The second lookup (the key with a dot appended) never decides the
   * outcome: the token's key is looked up, and an absent key leaves the token
   * without its dot.
   */
  lemma LookupOnce(token: string)
    ensures OldAlias(BookKey(token)).Some? ==> LookupBook(token) == OldAlias(BookKey(token)).value
    ensures OldAlias(BookKey(token)).None? ==> LookupBook(token) == StripTrailingDot(token)
  {
    if OldAlias(BookKey(token)).None? && OldAlias(BookKey(token) + ".").Some? {
      DottedKeyAgrees(BookKey(token));
    }
  }

  /** A text whose leading letter run holds a non-Roman letter is never taken for a numbered book. */
  lemma {:induction false} NumberedNeedsSpace(x: string, j: nat)
    requires j < |x| && !BiblicalRefs.IsRomanChar(x[j]) && BiblicalRefs.IsBookLetter(x[j])
    requires forall i :: 0 <= i < j ==> BiblicalRefs.IsBookLetter(x[i])
    ensures BiblicalRefs.MatchNumbered(x, "12").None?
  {
    if BiblicalRefs.IsRomanChar(x[0]) {
      var r := SpanWhile(x, 0, BiblicalRefs.IsRomanChar);
      assert r <= j;
      assert BiblicalRefs.IsBookLetter(x[r]);
      BiblicalRefs.CharClassFacts(x[r]);
      assert BiblicalRefs.NumeralEnd(x, "12") == r;
      assert SpanWhile(x, r, IsSpace) == r;
    } else {
      BiblicalRefs.CharClassFacts(x[0]);
      assert BiblicalRefs.NumeralEnd(x, "12") == 0;
    }
  }

  /** A trimmed text that starts with a book letter is left alone by both OCR repairs. */
  lemma PrepareBookHead(x: string)
    requires x != [] && BiblicalRefs.IsBookLetter(x[0]) && !IsSpace(x[|x| - 1])
    ensures Prepare(x) == x
  {
    BiblicalRefs.CharClassFacts(x[0]);
    TrimOfTrimmed(x);
    BiblicalRefs.KeepsBookHead(x);
  }

  /** Normalize is the composition of its steps when no numeral is in front. */
  lemma NormalizeSteps(raw: string, ref: string, token: string, cv: string)
    requires Prepare(raw) == ref && BiblicalRefs.MatchNumbered(ref, "12").None?
    requires BiblicalRefs.MatchBook(ref) == Some((token, cv))
    ensures Normalize(raw) == BiblicalRefs.Render("", LookupBook(token), BiblicalRefs.NormalizeCv(cv))
  {
  }

  /** The dot of a book token never changes the lookup. */
  lemma LookupIgnoresDot(b: string, d: string)
    requires b != [] && BiblicalRefs.AllBookLetters(b)
    requires d == "" || d == "."
    ensures LookupBook(b + d) == LookupBook(b)
  {
    if d == "." {
      DotKeys(b);
      SameKeysSameBook(b + d, b);
    } else {
      assert b + d == b;
    }
  }

  /** A dot after a book token changes neither its key nor its dot-stripped form. */
  lemma DotKeys(b: string)
    requires b != [] && BiblicalRefs.AllBookLetters(b)
    ensures BookKey(b + ".") == BookKey(b)
    ensures StripTrailingDot(b + ".") == StripTrailingDot(b)
  {
    assert BiblicalRefs.IsBookLetter(b[|b| - 1]);
    LowerStrConcat(b, ".");
    assert LowerStr(".") == ".";
    assert BookKey(b + ".") == LowerStr(b);
    LowerStrAt(b, |b| - 1);
    assert Lower(b[|b| - 1]) != '.';
    assert BookKey(b) == LowerStr(b);
  }

  /** The lookup depends on the token only through its key and its dot-stripped form. */
  lemma SameKeysSameBook(x: string, y: string)
    requires BookKey(x) == BookKey(y) && StripTrailingDot(x) == StripTrailingDot(y)
    ensures LookupBook(x) == LookupBook(y)
  {
  }

  /**
   * A reference made of a book token (letters with an optional dot),
   * whitespace and a chapter/verse part normalises to the looked-up book, a
   * space and the cleaned chapter/verse part; a trailing dot is dropped only
   * by the chapter/verse clean-up.
   */
  lemma {:induction false} NormalizeBookForm(b: string, d: string, sp: string, cv: string)
    requires b != [] && BiblicalRefs.AllBookLetters(b) && !BiblicalRefs.AllRoman(b)
    requires d == "" || d == "."
    requires AllSpace(sp)
    requires cv != [] && !IsSpace(cv[0]) && !IsSpace(cv[|cv| - 1]) && NoLineTerminator(cv)
    requires d == "" && sp == [] ==> !BiblicalRefs.IsBookLetter(cv[0]) && cv[0] != '.'
    ensures Normalize(b + d + sp + cv) == BiblicalRefs.Render("", LookupBook(b), BiblicalRefs.NormalizeCv(cv))
  {
    var j :| 0 <= j < |b| && !BiblicalRefs.IsRomanChar(b[j]);
    var x := b + d + sp + cv;
    assert BiblicalRefs.MatchNumbered(x, "12").None? by {
      assert forall i :: 0 <= i <= j ==> x[i] == b[i];
      NumberedNeedsSpace(x, j);
    }
    BiblicalRefs.MatchBookShape(b, d, sp, cv);
    assert Prepare(x) == x by {
      assert x[0] == b[0] && x[|x| - 1] == cv[|cv| - 1];
      PrepareBookHead(x);
    }
    NormalizeSteps(x, x, b + d, cv);
    LookupIgnoresDot(b, d);
  }

  /** The book pattern finds a token in a one-line text that starts with a book letter. */
  lemma {:induction false} MatchBookOneLine(t: string)
    requires t != [] && BiblicalRefs.IsBookLetter(t[0]) && NoLineTerminator(t)
    ensures BiblicalRefs.MatchBook(t).Some?
  {
    var w := SpanWhile(t, BiblicalRefs.BookTokenEnd(t), IsSpace);
    BiblicalRefs.NoLineTerminatorSlice(t, w, |t|);
    assert t[w..|t|] == t[w..];
  }

  /** Preparing "numeral, whitespace, text" changes nothing: the repairs need a letter after the "1". */
  lemma {:induction false} PrepareNumbered(n: string, ws: string, t: string)
    requires BiblicalRefs.IsNumeral(n, "12") && ws != [] && AllSpace(ws)
    requires t != [] && !IsSpace(t[|t| - 1])
    ensures Prepare(n + ws + t) == n + ws + t
  {
    var x := n + ws + t;
    assert x[0] == n[0] && x[|x| - 1] == t[|t| - 1];
    BiblicalRefs.CharClassFacts(n[0]);
    TrimOfTrimmed(x);
    if n[0] == '1' {
      assert |n| == 1 && x[1] == ws[0];
    }
  }

  /**
   * A numeral I, II (or any other run of I/V/X with an optional dot) or a
   * digit 1 or 2 followed by whitespace is cut off: I/1 and II/2 become the
   * digit glued to the normalised rest, III, IV and V become "3", "4", "5",
   * and any other numeral ("VI", "ii") is dropped.
   */
  lemma {:induction false} NormalizeNumbered(n: string, ws: string, t: string)
    requires BiblicalRefs.IsNumeral(n, "12") && ws != [] && AllSpace(ws)
    requires t != [] && BiblicalRefs.IsBookLetter(t[0]) && !BiblicalRefs.IsRomanChar(t[0])
    requires !IsSpace(t[|t| - 1]) && NoLineTerminator(t)
    ensures Normalize(n + ws + t) == BiblicalRefs.NumeralPrefix(BiblicalRefs.DropDot(n)) + Normalize(t)
  {
    NumberedHead(n, ws, t);
    BookHead(t);
    NumberedSteps(n + ws + t, t, BiblicalRefs.DropDot(n));
  }

  lemma NumberedHead(n: string, ws: string, t: string)
    requires BiblicalRefs.IsNumeral(n, "12") && ws != [] && AllSpace(ws)
    requires t != [] && !IsSpace(t[0]) && !IsSpace(t[|t| - 1]) && NoLineTerminator(t)
    ensures Prepare(n + ws + t) == n + ws + t
    ensures BiblicalRefs.MatchNumbered(n + ws + t, "12") == Some((BiblicalRefs.DropDot(n), t))
  {
    PrepareNumbered(n, ws, t);
    BiblicalRefs.NumberedSplits(n, ws, t, "12");
  }

  /** A one-line text that starts with a non-Roman book letter: prepared to itself, no numeral, a book token. */
  lemma BookHead(t: string)
    requires t != [] && BiblicalRefs.IsBookLetter(t[0]) && !BiblicalRefs.IsRomanChar(t[0])
    requires !IsSpace(t[|t| - 1]) && NoLineTerminator(t)
    ensures !IsSpace(t[0])
    ensures Prepare(t) == t && BiblicalRefs.MatchNumbered(t, "12").None? && BiblicalRefs.MatchBook(t).Some?
  {
    BiblicalRefs.CharClassFacts(t[0]);
    PrepareBookHead(t);
    NumberedNeedsSpace(t, 0);
    MatchBookOneLine(t);
  }

  /** Normalize on a numbered text is the prefix glued to the normalised rest. */
  lemma NumberedSteps(x: string, t: string, num: string)
    requires Prepare(x) == x && BiblicalRefs.MatchNumbered(x, "12") == Some((num, t))
    requires Prepare(t) == t && BiblicalRefs.MatchNumbered(t, "12").None? && BiblicalRefs.MatchBook(t).Some?
    ensures Normalize(x) == BiblicalRefs.NumeralPrefix(num) + Normalize(t)
  {
    var (token, cv) := BiblicalRefs.MatchBook(t).value;
    BiblicalRefs.RenderPrefix(BiblicalRefs.NumeralPrefix(num), LookupBook(token), BiblicalRefs.NormalizeCv(cv));
  }

  /**
   * When the trimmed input starts with neither a book letter nor "1" or "2"
   * (for example with "3", which this normaliser does not take as a prefix),
   * the trimmed input is returned unchanged; so is an empty one.
   */
  lemma NormalizeWithoutBook(raw: string)
    requires Trim(raw) == [] || (!BiblicalRefs.IsBookLetter(Trim(raw)[0]) && Trim(raw)[0] != '1' && Trim(raw)[0] != '2')
    ensures Normalize(raw) == Trim(raw)
  {
    var t := Trim(raw);
    if t != [] {
      BiblicalRefs.CharClassFacts(t[0]);
      assert BiblicalRefs.NumeralEnd(t, "12") == 0;
    }
  }

  /** "3 Kor 1,1" is not a numbered reference here: no book is found and the input comes back. */
  lemma ThreeIsNoPrefix()
    ensures Normalize("3 Kor 1,1") == "3 Kor 1,1"
  {
    var t := "3 Kor 1,1";
    assert IsTrimmed(t);
    TrimOfTrimmed(t);
    NormalizeWithoutBook(t);
  }

  /**
   * The OCR slip "1an" (any case) before whitespace is read as "Jan", the
   * gospel of John: the result is "J", a space and the cleaned chapter/verse part.
   */
  lemma {:induction false} NormalizeJanSlip(a: char, nn: char, sp: string, cv: string)
    requires (a == 'a' || a == 'A') && (nn == 'n' || nn == 'N')
    requires sp != [] && AllSpace(sp)
    requires cv != [] && !IsSpace(cv[0]) && !IsSpace(cv[|cv| - 1]) && NoLineTerminator(cv)
    ensures Normalize(['1', a, nn] + sp + cv) == BiblicalRefs.Render("", "J", BiblicalRefs.NormalizeCv(cv))
  {
    var x := ['1', a, nn] + sp + cv;
    var y := "Jan" + sp + cv;
    JanPrepared(a, nn, sp, cv);
    JanBook();
    SlipMatches("Jan", 0, sp, cv);
    NormalizeSteps(x, y, "Jan", cv);
  }

  lemma {:induction false} JanPrepared(a: char, nn: char, sp: string, cv: string)
    requires (a == 'a' || a == 'A') && (nn == 'n' || nn == 'N')
    requires sp != [] && AllSpace(sp)
    requires cv != [] && !IsSpace(cv[|cv| - 1])
    ensures Prepare(['1', a, nn] + sp + cv) == "Jan" + sp + cv
  {
    var x := ['1', a, nn] + sp + cv;
    assert x[0] == '1' && x[1] == a && x[2] == nn && x[3] == sp[0] && x[|x| - 1] == cv[|cv| - 1];
    assert x[3..] == sp + cv;
    TrimOfTrimmed(x);
  }

  /** The repaired book name, whitespace and a chapter/verse part: no numeral, and the book pattern splits there. */
  lemma {:induction false} SlipMatches(b: string, j: nat, sp: string, cv: string)
    requires b != [] && BiblicalRefs.AllBookLetters(b)
    requires j < |b| && !BiblicalRefs.IsRomanChar(b[j])
    requires sp != [] && AllSpace(sp)
    requires cv != [] && !IsSpace(cv[0]) && NoLineTerminator(cv)
    ensures BiblicalRefs.MatchNumbered(b + sp + cv, "12").None?
    ensures BiblicalRefs.MatchBook(b + sp + cv) == Some((b, cv))
  {
    var y := b + sp + cv;
    assert forall i :: 0 <= i <= j ==> y[i] == b[i];
    NumberedNeedsSpace(y, j);
    assert b + "" + sp + cv == y && b + "" == b;
    BiblicalRefs.MatchBookShape(b, "", sp, cv);
  }

  /**
   * The OCR slip "1z" (either case) before whitespace is read as Isaiah: the
   * result is "Iz", a space and the cleaned chapter/verse part.
   */
  lemma {:induction false} NormalizeIzSlip(z: char, sp: string, cv: string)
    requires z == 'z' || z == 'Z'
    requires sp != [] && AllSpace(sp)
    requires cv != [] && !IsSpace(cv[0]) && !IsSpace(cv[|cv| - 1]) && NoLineTerminator(cv)
    ensures Normalize(['1', z] + sp + cv) == BiblicalRefs.Render("", "Iz", BiblicalRefs.NormalizeCv(cv))
  {
    var x := ['1', z] + sp + cv;
    var y := "Iz" + sp + cv;
    IzPrepared(z, sp, cv);
    IzBook();
    SlipMatches("Iz", 1, sp, cv);
    NormalizeSteps(x, y, "Iz", cv);
  }

  lemma {:induction false} IzPrepared(z: char, sp: string, cv: string)
    requires z == 'z' || z == 'Z'
    requires sp != [] && AllSpace(sp)
    requires cv != [] && !IsSpace(cv[|cv| - 1])
    ensures Prepare(['1', z] + sp + cv) == "Iz" + sp + cv
  {
    IzRepaired(z, sp, cv);
    assert ("Iz" + sp + cv)[0] == 'I';
  }

  lemma {:induction false} IzRepaired(z: char, sp: string, cv: string)
    requires z == 'z' || z == 'Z'
    requires sp != [] && AllSpace(sp)
    requires cv != [] && !IsSpace(cv[|cv| - 1])
    ensures BiblicalRefs.FixLeadingIz(Trim(['1', z] + sp + cv)) == "Iz" + sp + cv
  {
    var x := ['1', z] + sp + cv;
    assert x[0] == '1' && x[1] == z && x[2] == sp[0] && x[|x| - 1] == cv[|cv| - 1];
    assert x[2..] == sp + cv;
    assert IsTrimmed(x);
    TrimOfTrimmed(x);
    assert IsSpace(sp[0]);
    BiblicalRefs.CharClassFacts(sp[0]);
    assert BiblicalRefs.FixLeadingIz(x) == "Iz" + x[2..];
  }

  lemma IzBook()
    ensures BiblicalRefs.AllBookLetters("Iz") && !BiblicalRefs.IsRomanChar("Iz"[1])
    ensures LookupBook("Iz") == "Iz"
  {
    assert LowerStr("Iz") == "iz";
  }

  lemma JanBook()
    ensures BiblicalRefs.AllBookLetters("Jan") && !BiblicalRefs.IsRomanChar("Jan"[0])
    ensures LookupBook("Jan") == "J"
  {
    assert LowerStr("Jan") == "jan";
  }

  // "Mat. 22, 37—46" becomes "Mt 22,37-46", as with the shared normaliser.

  lemma MatthewBook()
    ensures LookupBook("Mat") == "Mt"
  {
    assert LowerStr("Mat") == "mat";
  }

  lemma ExampleMatthew()
    ensures Normalize("Mat. 22, 37—46") == "Mt 22,37-46"
  {
    BiblicalRefs.MatthewPieces();
    BiblicalRefs.MatthewOneLine();
    BiblicalRefs.MatthewVerses();
    BiblicalRefs.MatthewBook();
    MatthewBook();
    NormalizeBookForm("Mat", ".", " ", "22, 37—46");
    assert "" + "Mt" == "Mt";
  }

  // "1an 3,16" becomes "J 3,16".

  lemma JohnPieces()
    ensures "1an 3,16" == ['1', 'a', 'n'] + " " + "3,16"
    ensures AllSpace(" ") && BiblicalRefs.CleanCv("3,16") && !IsSpace("3,16"[0]) && !IsSpace("3,16"[3])
    ensures "J" + " " + "3,16" == "J 3,16"
  {
  }

  lemma ExampleJanSlip()
    ensures Normalize("1an 3,16") == "J 3,16"
  {
    JohnPieces();
    BiblicalRefs.CleanCvOneLine("3,16");
    BiblicalRefs.NormalizeCvClean("3,16");
    NormalizeJanSlip('a', 'n', " ", "3,16");
    assert "" + "J" == "J";
  }

  /** A non-empty input never normalises to "": the `if (normalized)` test of the extractor always passes. */
  lemma NormalizeNonEmpty(raw: string)
    requires Trim(raw) != []
    ensures Normalize(raw) != []
  {
    var (prefix, rest) := SplitPrefix(Prepare(raw));
    match BiblicalRefs.MatchBook(rest)
    case None =>
    case Some((token, cv)) =>
      assert token != [] && BiblicalRefs.IsBookLetter(token[0]) by {
        assert SpanWhile(rest, 0, BiblicalRefs.IsBookLetter) >= 1;
      }
      LookupOnce(token);
      BiblicalRefs.CharClassFacts(token[0]);
      assert LookupBook(token) != [];
  }

  // ---------------------------------------------------------------------------
  // extractBiblicalRefs
  // ---------------------------------------------------------------------------

  /** What the extractor returns: the normalised references and the liturgical label. */
  datatype Citation = Citation(refs: seq<string>, liturgical: string)

  /** `raw.replace(/^\(/, "").replace(/\)\s*$/, "").trim()`: one opening and one closing parenthesis dropped. */
  function Unwrap(raw: string): (text: string)
    ensures IsTrimmed(text)
  {
    var a := if raw != [] && raw[0] == '(' then raw[1..] else raw;
    var r := TrimRight(a);
    Trim(if r != [] && r[|r| - 1] == ')' then r[..|r| - 1] else a)
  }

  predicate IsColonOrParen(c: char) { c == ':' || c == ')' }

  predicate NotColonOrParen(c: char) { !IsColonOrParen(c) }

  /** The keywords that open a liturgical label, in either case (`Sv[áa]tek` is two of them). */
  predicate KeywordLed(s: string) {
    StartsWithI(s, "Ned") || StartsWithI(s, "Neděle") || StartsWithI(s, "Svátek") || StartsWithI(s, "Svatek")
    || StartsWithI(s, "Nanebevstoup") || StartsWithI(s, "Letnice") || StartsWithI(s, "Velikonoce")
    || StartsWithI(s, "Advent") || StartsWithI(s, "Vánoce") || StartsWithI(s, "Půst")
  }

  /**
   * The first label pattern, `^((?:keywords)[^:)]*?):\s*` with /i: a keyword,
   * then everything up to the first ':' (no ')' before it), the colon and the
   * whitespace after it. On a match, the label and the end of the match. The
   * keywords hold no ':' or ')', so the first of those two after the keyword
   * is the first in the text.
   */
  function ColonLabel(s: string): (m: Option<(string, nat)>)
    ensures m.Some? ==> m.value.1 <= |s|
  {
    if !KeywordLed(s) then None
    else
      var c := SpanWhile(s, 0, NotColonOrParen);
      if c < |s| && s[c] == ':' then Some((s[..c], SpanWhile(s, c + 1, IsSpace))) else None
  }

  /** `w1\s+w2` at position `q`. */
  function TwoWordsAt(s: string, q: nat, w1: string, w2: string): (e: Option<nat>)
    requires q <= |s|
    ensures e.Some? ==> q <= e.value <= |s|
  {
    match WordAt(s, q, w1)
    case None => None
    case Some(a) => (
      match SpacesAt(s, a)
      case None => None
      case Some(b) => WordAt(s, b, w2))
  }

  /** `Ned\.?\s*\d+\.?\s*` at the start: the position after it. Each piece is possessive here, since nothing that follows can start with what a piece gives back. */
  function NedNumber(s: string): (p: Option<nat>)
    ensures p.Some? ==> p.value <= |s|
  {
    if !StartsWithI(s, "Ned") then None
    else
      var a := if 3 < |s| && s[3] == '.' then 4 else 3;
      var b := SpanWhile(s, a, IsSpace);
      var c := SpanWhile(s, b, IsDigit);
      if c == b then None
      else
        var d := if c < |s| && s[c] == '.' then c + 1 else c;
        Some(SpanWhile(s, d, IsSpace))
  }

  /** `sv\.\s*D\.?` at position `q`. */
  function SaintAt(s: string, q: nat): (e: Option<nat>)
    requires q <= |s|
    ensures e.Some? ==> q <= e.value <= |s|
  {
    match WordAt(s, q, "sv.")
    case None => None
    case Some(a) => (
      match WordAt(s, SpanWhile(s, a, IsSpace), "D")
      case None => None
      case Some(d) => Some(if d < |s| && s[d] == '.' then d + 1 else d))
  }

  /**
   * The season alternatives `sv\.\s*D\.?|po\s+Třech\s+králích|adventní|postní|velikon|po\s+Zjev`
   * at position `q`, tried in order. At most one of them matches at a
   * position, so the first that matches is the only one.
   */
  function SeasonAt(s: string, q: nat): (e: Option<nat>)
    requires q <= |s|
    ensures e.Some? ==> q <= e.value <= |s|
  {
    if SaintAt(s, q).Some? then SaintAt(s, q)
    else if TwoWordsAt(s, q, "po", "Třech").Some? then
      match SpacesAt(s, TwoWordsAt(s, q, "po", "Třech").value)
      case None => None
      case Some(b) => WordAt(s, b, "králích")
    else if WordAt(s, q, "adventní").Some? then WordAt(s, q, "adventní")
    else if WordAt(s, q, "postní").Some? then WordAt(s, q, "postní")
    else if WordAt(s, q, "velikon").Some? then WordAt(s, q, "velikon")
    else TwoWordsAt(s, q, "po", "Zjev")
  }

  /** One of the delimiters `[,—–-]` that end the second label pattern. */
  predicate IsLabelDelim(c: char) { c == ',' || c == '—' || c == '–' || c == '-' }

  predicate NotLabelDelim(c: char) { !IsLabelDelim(c) }

  /** The start of the whitespace run that ends at `d`, but not before `lo`. */
  function SpaceRunStart(s: string, lo: nat, d: nat): (r: nat)
    requires lo <= d <= |s|
    ensures lo <= r <= d
    ensures forall k :: r <= k < d ==> IsSpace(s[k])
    ensures r > lo ==> !IsSpace(s[r - 1])
    decreases d - lo
  {
    if d > lo && IsSpace(s[d - 1]) then SpaceRunStart(s, lo, d - 1) else d
  }

  /**
   * `[^,—–-]*?)\s*[,—–-]\s*` from position `a`: the lazy run stops as soon as
   * only whitespace separates it from the first delimiter. On a match, the end
   * of the label group and the end of the match.
   */
  function LabelEnd(s: string, a: nat): (m: Option<(nat, nat)>)
    requires a <= |s|
    ensures m.Some? ==> a <= m.value.0 < m.value.1 <= |s|
  {
    var d := SpanWhile(s, a, NotLabelDelim);
    if d == |s| then None else Some((SpaceRunStart(s, a, d), SpanWhile(s, d + 1, IsSpace)))
  }

  /** A season alternative at `q` and the delimiter after it. */
  function AfterSeason(s: string, q: nat): (m: Option<(nat, nat)>)
    requires q <= |s|
    ensures m.Some? ==> m.value.0 < m.value.1 <= |s|
  {
    match SeasonAt(s, q)
    case None => None
    case Some(a) => LabelEnd(s, a)
  }

  /** `po\s+` at position `q`. */
  function PoAt(s: string, q: nat): (e: Option<nat>)
    requires q <= |s|
    ensures e.Some? ==> q <= e.value <= |s|
  {
    match WordAt(s, q, "po")
    case None => None
    case Some(a) => SpacesAt(s, a)
  }

  /**
   * The second label pattern, `^(Ned\.?\s*\d+\.?\s*(?:po\s+)?(season)[^,—–-]*?)\s*[,—–-]\s*`
   * with /i. The optional "po" is tried first and given back when the rest
   * fails after it. On a match, the label group and the end of the match.
   */
  function SeasonLabel(s: string): (m: Option<(string, nat)>)
    ensures m.Some? ==> m.value.1 <= |s|
  {
    match NedNumber(s)
    case None => None
    case Some(p) =>
      var hit :=
        match PoAt(s, p)
        case Some(p1) => (if AfterSeason(s, p1).Some? then AfterSeason(s, p1) else AfterSeason(s, p))
        case None => AfterSeason(s, p);
      match hit
      case None => None
      case Some((k, e)) => Some((s[..k], e))
  }

  /** The liturgical label (trimmed, "" when neither pattern matches) and the text after it. */
  function SplitLiturgical(text: string): (string, string) {
    match ColonLabel(text)
    case Some((g, e)) => (Trim(g), text[e..])
    case None => (
      match SeasonLabel(text)
      case Some((g, e)) => (Trim(g), text[e..])
      case None => ("", text))
  }

  /** `Epištola\s*(?:k\s*)?` with /i at the start of `s`: the end of the match. */
  function EpistolaAt(s: string): (e: Option<nat>)
    ensures e.Some? ==> 8 <= e.value <= |s|
  {
    if StartsWithI(s, "Epištola") then
      var w := SpanWhile(s, 8, IsSpace);
      Some(if w < |s| && (s[w] == 'k' || s[w] == 'K') then SpanWhile(s, w + 1, IsSpace) else w)
    else None
  }

  /** `s.replace(/Epištola\s*(?:k\s*)?/gi, "")`: every match, left to right, removed. */
  function RemoveEpistola(s: string): string
    decreases |s|
  {
    if s == [] then []
    else match EpistolaAt(s)
      case Some(e) => RemoveEpistola(s[e..])
      case None => [s[0]] + RemoveEpistola(s[1..])
  }

  /** `Evangelium\s*` with /i at the start of `s`: the end of the match. */
  function EvangeliumAt(s: string): (e: Option<nat>)
    ensures e.Some? ==> 10 <= e.value <= |s|
  {
    if StartsWithI(s, "Evangelium") then Some(SpanWhile(s, 10, IsSpace)) else None
  }

  /** `s.replace(/Evangelium\s*\/gi, "")`. */
  function RemoveEvangelium(s: string): string
    decreases |s|
  {
    if s == [] then []
    else match EvangeliumAt(s)
      case Some(e) => RemoveEvangelium(s[e..])
      case None => [s[0]] + RemoveEvangelium(s[1..])
  }

  predicate IsFragmentSep(c: char) { c == ')' || c == ';' }

  /**
   * The fragments between the separators ')' and ';'. The source splits at
   * `/\)\s*\(?|;\s*\/`, which also swallows the whitespace and '(' after a
   * separator; every fragment loses its parentheses and is trimmed before it
   * is used, so the two splits lead to the same references.
   */
  function Fragments(s: string): (parts: seq<string>)
    ensures |parts| >= 1
  {
    if s == [] then [[]]
    else
      var rest := Fragments(s[1..]);
      if IsFragmentSep(s[0]) then [[]] + rest else [[s[0]] + rest[0]] + rest[1..]
  }

  /** A fragment with its parentheses removed and trimmed. */
  function Clean(part: string): string {
    Trim(RemoveChars(part, {'(', ')'}))
  }

  /**
   * What a fragment contributes: its normalised form when the cleaned
   * fragment holds a digit (which makes it non-empty), else nothing.
   */
  function Candidate(part: string): (r: Option<string>)
    ensures r.Some? <==> HasDigit(Clean(part))
    ensures r.Some? ==> r.value == Normalize(Clean(part)) && r.value != []
  {
    var cleaned := Clean(part);
    if HasDigit(cleaned) then
      HasDigitNonEmpty(cleaned);
      NormalizeNonEmpty(cleaned);
      Some(Normalize(cleaned))
    else None
  }

  lemma HasDigitNonEmpty(s: string)
    requires HasDigit(s)
    ensures Trim(s) == s ==> Trim(s) != []
  {
  }

  /** The values of the present elements, in order. */
  function Somes<T>(xs: seq<Option<T>>): (ys: seq<T>)
    ensures |ys| <= |xs|
  {
    if xs == [] then []
    else Somes(xs[..|xs| - 1]) + (if xs[|xs| - 1].Some? then [xs[|xs| - 1].value] else [])
  }

  /** The text the fragments are cut from: the labels removed from what follows the liturgical part. */
  function RefBody(rest: string): string {
    Trim(RemoveEvangelium(Trim(RemoveEpistola(rest))))
  }

  /** The references a reference body yields: the candidates of its fragments, in order. */
  function RefsOf(body: string): seq<string> {
    Somes(MapSeq(Fragments(body), Candidate))
  }

  /** `extractBiblicalRefs` as a value. */
  function Extract(raw: string): Citation {
    var (liturgical, rest) := SplitLiturgical(Unwrap(raw));
    Citation(RefsOf(RefBody(rest)), liturgical)
  }

  /** `extractBiblicalRefs`: the liturgical part, the label removal, and the loop over the fragments. */
  method ExtractBiblicalRefs(raw: string) returns (result: Citation)
    ensures result == Extract(raw)
  {
    var liturgical := "";
    var refText := Unwrap(raw);
    var lit := ColonLabel(refText);
    if lit.Some? {
      liturgical := Trim(lit.value.0);
      refText := refText[lit.value.1..];
    } else {
      var lit2 := SeasonLabel(refText);
      if lit2.Some? {
        liturgical := Trim(lit2.value.0);
        refText := refText[lit2.value.1..];
      }
    }
    refText := Trim(RemoveEpistola(refText));
    refText := Trim(RemoveEvangelium(refText));
    var refs := KeepPresent(Fragments(refText), Candidate);
    result := Citation(refs, liturgical);
  }

  /** The loop over the fragments: each candidate that is present is pushed, in order. */
  method KeepPresent<A, B>(parts: seq<A>, f: A -> Option<B>) returns (refs: seq<B>)
    ensures refs == Somes(MapSeq(parts, f))
  {
    ghost var cs := MapSeq(parts, f);
    refs := [];
    for i := 0 to |parts|
      invariant refs == Somes(cs[..i])
    {
      var c := f(parts[i]);
      MapAt(parts, f, i);
      assert cs[..i + 1][..i] == cs[..i];
      if c.Some? {
        refs := refs + [c.value];
      }
    }
    assert cs[..|parts|] == cs;
  }

  // Properties of the extractor.

  /** One pair of parentheses around the citation is dropped and the inside trimmed. */
  lemma UnwrapParens(t: string)
    ensures Unwrap("(" + t + ")") == Trim(t)
  {
    var raw := "(" + t + ")";
    var a := raw[1..];
    assert a == t + ")";
    assert TrimRight(a) == a;
    assert a[..|a| - 1] == t;
  }

  /** A keyword match only looks at the start of the text. */
  lemma KeywordLedConcat(lab: string, t: string)
    requires KeywordLed(lab)
    ensures KeywordLed(lab + t)
  {
    forall p | StartsWithI(lab, p)
      ensures StartsWithI(lab + t, p)
    {
      StartsWithIConcat(lab, t, p);
    }
  }

  /** The initials of the keywords, upper-cased. */
  predicate IsKeywordInitial(c: char) {
    c == 'N' || c == 'S' || c == 'L' || c == 'V' || c == 'A' || c == 'P'
  }

  lemma StartsWithIHead(s: string, p: string)
    requires p != [] && StartsWithI(s, p)
    ensures s != [] && Upper(s[0]) == Upper(p[0])
  {
    assert UpperStr(s[..|p|])[0] == Upper(s[0]);
  }

  lemma KeywordHead(s: string, p: string)
    requires p != [] && IsKeywordInitial(Upper(p[0])) && StartsWithI(s, p)
    ensures s != [] && IsKeywordInitial(Upper(s[0]))
  {
    StartsWithIHead(s, p);
  }

  /** Every keyword-led text starts with one of the keywords' initials, in either case. */
  lemma KeywordInitial(s: string)
    requires KeywordLed(s)
    ensures s != [] && IsKeywordInitial(Upper(s[0]))
  {
    var n, sv, l, v, a, pu := "Ned", "Svátek", "Letnice", "Velikonoce", "Advent", "Půst";
    assert IsKeywordInitial(Upper(n[0])) && IsKeywordInitial(Upper(sv[0])) && IsKeywordInitial(Upper(l[0]));
    assert IsKeywordInitial(Upper(v[0])) && IsKeywordInitial(Upper(a[0])) && IsKeywordInitial(Upper(pu[0]));
    if StartsWithI(s, n) { KeywordHead(s, n); }
    else if StartsWithI(s, "Neděle") { KeywordHead(s, "Neděle"); }
    else if StartsWithI(s, sv) { KeywordHead(s, sv); }
    else if StartsWithI(s, "Svatek") { KeywordHead(s, "Svatek"); }
    else if StartsWithI(s, "Nanebevstoup") { KeywordHead(s, "Nanebevstoup"); }
    else if StartsWithI(s, l) { KeywordHead(s, l); }
    else if StartsWithI(s, v) { KeywordHead(s, v); }
    else if StartsWithI(s, a) { KeywordHead(s, a); }
    else if StartsWithI(s, "Vánoce") { KeywordHead(s, "Vánoce"); }
    else { KeywordHead(s, pu); }
  }

  /** A text that does not start with a keyword initial carries no liturgical label. */
  lemma NoLabel(text: string)
    requires text == [] || !IsKeywordInitial(Upper(text[0]))
    ensures SplitLiturgical(text) == ("", text)
  {
    if KeywordLed(text) {
      KeywordInitial(text);
    }
    if StartsWithI(text, "Ned") {
      StartsWithIHead(text, "Ned");
    }
  }

  /**
   * In a keyword-led text everything up to the first ':' is the liturgical
   * label; the colon and the whitespace after it are dropped.
   */
  lemma ColonLabelSplit(lab: string, sp: string, rest: string)
    requires KeywordLed(lab)
    requires forall k :: 0 <= k < |lab| ==> NotColonOrParen(lab[k])
    requires AllSpace(sp) && (rest == [] || !IsSpace(rest[0]))
    ensures SplitLiturgical(lab + ":" + sp + rest) == (Trim(lab), rest)
  {
    var s := lab + ":" + sp + rest;
    KeywordLedConcat(lab, ":" + sp + rest);
    assert s == lab + (":" + sp + rest);
    SpanWhileStops(s, 0, |lab|, NotColonOrParen);
    var e := |lab| + 1 + |sp|;
    SpanWhileStops(s, |lab| + 1, e, IsSpace);
    assert s[e..] == rest;
    assert s[..|lab|] == lab;
  }

  /** A text without 'E' or 'e' holds neither label. */
  predicate NoLetterE(s: string) {
    forall k :: 0 <= k < |s| ==> s[k] != 'E' && s[k] != 'e'
  }

  lemma {:induction false} LabelsAbsent(s: string)
    requires NoLetterE(s)
    ensures RemoveEpistola(s) == s && RemoveEvangelium(s) == s
    decreases |s|
  {
    if s != [] {
      assert Upper(s[0]) != 'E';
      assert EpistolaAt(s).None? by {
        if StartsWithI(s, "Epištola") {
          StartsWithIHead(s, "Epištola");
        }
      }
      assert EvangeliumAt(s).None? by {
        if StartsWithI(s, "Evangelium") {
          StartsWithIHead(s, "Evangelium");
        }
      }
      assert NoLetterE(s[1..]) by {
        assert forall k :: 0 <= k < |s| - 1 ==> s[1..][k] == s[k + 1];
      }
      LabelsAbsent(s[1..]);
      assert [s[0]] + s[1..] == s;
    }
  }

  /** "Epištola" and the whitespace after it are removed when no "k" follows. */
  lemma EpistolaLabel(sp: string, t: string)
    requires AllSpace(sp)
    requires t == [] || (!IsSpace(t[0]) && t[0] != 'k' && t[0] != 'K')
    ensures RemoveEpistola("Epištola" + sp + t) == RemoveEpistola(t)
  {
    var s := "Epištola" + sp + t;
    assert s[..8] == "Epištola";
    var w := 8 + |sp|;
    SpanWhileStops(s, 8, w, IsSpace);
    assert s[w..] == t;
  }

  /**
   * "Epištola k" and the whitespace around the "k" are removed. The "k" is
   * matched in either case, so the capital K that starts "Kol." goes too.
   */
  lemma EpistolaK(k: char, sp: string, sp2: string, t: string)
    requires k == 'k' || k == 'K'
    requires AllSpace(sp) && AllSpace(sp2)
    requires t == [] || !IsSpace(t[0])
    ensures RemoveEpistola("Epištola" + sp + [k] + sp2 + t) == RemoveEpistola(t)
  {
    var s := "Epištola" + sp + [k] + sp2 + t;
    assert s[..8] == "Epištola";
    var w := 8 + |sp|;
    SpanWhileStops(s, 8, w, IsSpace);
    assert s[w] == k;
    var e := w + 1 + |sp2|;
    SpanWhileStops(s, w + 1, e, IsSpace);
    assert s[e..] == t;
  }

  /** "Evangelium" and the whitespace after it are removed. */
  lemma EvangeliumLabel(sp: string, t: string)
    requires AllSpace(sp)
    requires t == [] || !IsSpace(t[0])
    ensures RemoveEvangelium("Evangelium" + sp + t) == RemoveEvangelium(t)
  {
    var s := "Evangelium" + sp + t;
    assert s[..10] == "Evangelium";
    var w := 10 + |sp|;
    SpanWhileStops(s, 10, w, IsSpace);
    assert s[w..] == t;
  }

  /** A text without separators is one fragment. */
  lemma {:induction false} FragmentsNoSep(s: string)
    requires forall k :: 0 <= k < |s| ==> !IsFragmentSep(s[k])
    ensures Fragments(s) == [s]
  {
    if s != [] {
      assert forall k :: 0 <= k < |s| - 1 ==> s[1..][k] == s[k + 1];
      FragmentsNoSep(s[1..]);
      assert [s[0]] + s[1..] == s;
    }
  }

  /** A separator cuts the text in two: the fragments before it, then those after it. */
  lemma {:induction false} FragmentsAtSep(a: string, c: char, b: string)
    requires IsFragmentSep(c)
    ensures Fragments(a + [c] + b) == Fragments(a) + Fragments(b)
  {
    if a == [] {
      assert a + [c] + b == [c] + b;
      FragmentsCons(c, b);
    } else {
      var x, y := a[0], a[1..];
      assert a == [x] + y;
      assert a + [c] + b == [x] + (y + [c] + b);
      FragmentsAtSep(y, c, b);
      FragmentsCons(x, y + [c] + b);
      FragmentsCons(x, y);
      ConsThenConcat(x, Fragments(y), Fragments(b));
    }
  }

  lemma FragmentsCons(x: char, y: string)
    ensures Fragments([x] + y) ==
      if IsFragmentSep(x) then [[]] + Fragments(y) else [[x] + Fragments(y)[0]] + Fragments(y)[1..]
  {
    assert ([x] + y)[0] == x && ([x] + y)[1..] == y;
  }

  /** Adding a character in front of the fragments of `f`, then appending `g`, in either order. */
  lemma ConsThenConcat(x: char, f: seq<string>, g: seq<string>)
    requires f != []
    ensures (if IsFragmentSep(x) then [[]] + (f + g) else [[x] + (f + g)[0]] + (f + g)[1..])
      == (if IsFragmentSep(x) then [[]] + f else [[x] + f[0]] + f[1..]) + g
  {
    HeadTail(f, g);
    if IsFragmentSep(x) {
      assert [[]] + (f + g) == ([[]] + f) + g;
    } else {
      assert [[x] + f[0]] + (f[1..] + g) == ([[x] + f[0]] + f[1..]) + g;
    }
  }

  lemma HeadTail<T>(t: seq<T>, u: seq<T>)
    requires t != []
    ensures (t + u)[0] == t[0] && (t + u)[1..] == t[1..] + u
  {
  }

  lemma {:induction false} SomesConcat<T>(xs: seq<Option<T>>, ys: seq<Option<T>>)
    ensures Somes(xs + ys) == Somes(xs) + Somes(ys)
    decreases |ys|
  {
    if ys == [] {
      assert xs + ys == xs;
    } else {
      var zs := xs + ys;
      assert zs[..|zs| - 1] == xs + ys[..|ys| - 1];
      assert zs[|zs| - 1] == ys[|ys| - 1];
      SomesConcat(xs, ys[..|ys| - 1]);
    }
  }

  lemma {:induction false} SomesIn<T>(xs: seq<Option<T>>, y: T)
    ensures y in Somes(xs) <==> Some(y) in xs
    decreases |xs|
  {
    if xs != [] {
      SomesIn(xs[..|xs| - 1], y);
      assert xs == xs[..|xs| - 1] + [xs[|xs| - 1]];
    }
  }

  /** The references of a body cut at a separator are those of the two sides, in order. */
  lemma RefsAtSep(a: string, c: char, b: string)
    requires IsFragmentSep(c)
    ensures RefsOf(a + [c] + b) == RefsOf(a) + RefsOf(b)
  {
    FragmentsAtSep(a, c, b);
    MapConcat(Fragments(a), Fragments(b), Candidate);
    SomesConcat(MapSeq(Fragments(a), Candidate), MapSeq(Fragments(b), Candidate));
  }

  /** A fragment yields its normalised form exactly when it holds a digit once its parentheses are gone. */
  lemma RefsOfFragment(a: string)
    requires forall k :: 0 <= k < |a| ==> !IsFragmentSep(a[k])
    ensures RefsOf(a) == if HasDigit(Clean(a)) then [Normalize(Clean(a))] else []
  {
    FragmentsNoSep(a);
    MapOne(a, Candidate);
    assert [Candidate(a)][..0] == [];
  }

  lemma SomesOfMap<A, B>(xs: seq<A>, f: A -> Option<B>, y: B)
    ensures y in Somes(MapSeq(xs, f)) <==> exists x :: x in xs && f(x) == Some(y)
  {
    var cs := MapSeq(xs, f);
    SomesIn(cs, y);
    forall i | 0 <= i < |xs|
      ensures cs[i] == f(xs[i])
    {
      MapAt(xs, f, i);
    }
    if Some(y) in cs {
      var i :| 0 <= i < |cs| && cs[i] == Some(y);
      assert xs[i] in xs;
    }
    if exists x :: x in xs && f(x) == Some(y) {
      var x :| x in xs && f(x) == Some(y);
      var i :| 0 <= i < |xs| && xs[i] == x;
      assert cs[i] == Some(y);
    }
  }

  /** The fragment `p` holds a digit once its parentheses are gone and normalises to `r`. */
  predicate YieldsRef(p: string, r: string) {
    HasDigit(Clean(p)) && r == Normalize(Clean(p))
  }

  lemma CandidateYields(p: string, r: string)
    ensures Candidate(p) == Some(r) <==> YieldsRef(p, r)
  {
  }

  /**
   * A string is among the references exactly when it is the normalised form
   * of a fragment that holds a digit; none of them is empty.
   */
  lemma RefsMembership(body: string, r: string)
    ensures r in RefsOf(body) <==> exists p :: p in Fragments(body) && YieldsRef(p, r)
    ensures r in RefsOf(body) ==> r != []
  {
    var fs := Fragments(body);
    SomesOfMap(fs, Candidate, r);
    if r in RefsOf(body) {
      var p :| p in fs && Candidate(p) == Some(r);
      CandidateYields(p, r);
    }
    if exists p :: p in fs && YieldsRef(p, r) {
      var p :| p in fs && YieldsRef(p, r);
      CandidateYields(p, r);
    }
  }

  /** A body without 'E' or 'e' that is already trimmed is left as it is by the label removal. */
  lemma RefBodyPlain(body: string)
    requires NoLetterE(body) && IsTrimmed(body)
    ensures RefBody(body) == body
  {
    LabelsAbsent(body);
    TrimOfTrimmed(body);
  }

  /**
   * A parenthesised citation with a keyword-led label before a colon: the
   * label, trimmed, is the liturgical text, and the references come from
   * what follows the colon.
   */
  lemma ExtractColonLabel(lab: string, sp: string, body: string)
    requires KeywordLed(lab)
    requires forall k :: 0 <= k < |lab| ==> NotColonOrParen(lab[k])
    requires AllSpace(sp)
    requires body != [] && IsTrimmed(body) && NoLetterE(body)
    ensures Extract("(" + lab + ":" + sp + body + ")") == Citation(RefsOf(body), Trim(lab))
  {
    var t := lab + ":" + sp + body;
    Parenthesised(lab, sp, body);
    ColonCitationText(lab, sp, body);
    ColonLabelSplit(lab, sp, body);
    RefBodyPlain(body);
    ExtractSteps("(" + t + ")", t, Trim(lab), body);
  }

  lemma ColonCitationText(lab: string, sp: string, body: string)
    requires KeywordLed(lab)
    requires body != [] && IsTrimmed(body)
    ensures Unwrap("(" + (lab + ":" + sp + body) + ")") == lab + ":" + sp + body
  {
    var t := lab + ":" + sp + body;
    UnwrapParens(t);
    KeywordInitial(lab);
    assert IsTrimmed(t) by {
      assert t[0] == lab[0];
      assert t[|t| - 1] == body[|body| - 1];
    }
    TrimOfTrimmed(t);
  }

  lemma Parenthesised(lab: string, sp: string, body: string)
    ensures "(" + lab + ":" + sp + body + ")" == "(" + (lab + ":" + sp + body) + ")"
  {
  }

  lemma ExtractSteps(raw: string, text: string, liturgical: string, rest: string)
    requires Unwrap(raw) == text && SplitLiturgical(text) == (liturgical, rest)
    ensures Extract(raw) == Citation(RefsOf(RefBody(rest)), liturgical)
  {
  }

  // "(Ned. I. postní: Mat. 4, 1—11.)" is the first Sunday of Lent with Mt 4,1-11.

  lemma LentSplit()
    ensures "(Ned. I. postní: Mat. 4, 1—11.)" == "(" + "Ned. I. postní" + ":" + " " + "Mat. 4, 1—11." + ")"
    ensures AllSpace(" ")
  {
  }

  lemma LentLabelChars()
    ensures forall k :: 0 <= k < |"Ned. I. postní"| ==> NotColonOrParen("Ned. I. postní"[k])
    ensures IsTrimmed("Ned. I. postní")
  {
  }

  lemma LentBodyChars()
    ensures IsTrimmed("Mat. 4, 1—11.") && NoLetterE("Mat. 4, 1—11.") && IsDigit("Mat. 4, 1—11."[5])
    ensures forall k :: 0 <= k < |"Mat. 4, 1—11."| ==> !IsFragmentSep("Mat. 4, 1—11."[k]) && "Mat. 4, 1—11."[k] !in {'(', ')'}
  {
  }

  lemma LentBookSplit()
    ensures "Mat. 4, 1—11." == "Mat" + "." + " " + "4, 1—11."
    ensures !IsSpace("4, 1—11."[0]) && !IsSpace("4, 1—11."[7])
  {
  }

  lemma LentKeyword()
    ensures KeywordLed("Ned. I. postní")
  {
    assert "Ned. I. postní"[..3] == "Ned";
  }

  lemma LentVerses()
    ensures BiblicalRefs.NormalizeCv("4, 1—11.") == "4,1-11"
  {
    assert BiblicalRefs.NoSpaceNoDash("4,") && BiblicalRefs.NoSpaceNoDash("1") && BiblicalRefs.NoSpaceNoDash("11.");
    BiblicalRefs.NormalizeCvDotted("4,", "1", "11.");
    assert "4, 1—11." == "4," + " " + "1" + "—" + "11.";
    assert "11."[..2] == "11";
    assert "4," + "1" + "-" + "11" == "4,1-11";
  }

  lemma LentOneLine()
    ensures NoLineTerminator("4, 1—11.")
  {
    var a, b, c := "4,", " 1", "—11.";
    assert NoLineTerminator(a) && NoLineTerminator(b) && NoLineTerminator(c);
    NoLineTerminatorConcat(a, b);
    NoLineTerminatorConcat(a + b, c);
    assert "4, 1—11." == a + b + c;
  }

  lemma LentReference()
    ensures Normalize("Mat. 4, 1—11.") == "Mt 4,1-11"
  {
    LentBookSplit();
    LentVerses();
    LentOneLine();
    BiblicalRefs.MatthewPieces();
    MatthewBook();
    NormalizeBookForm("Mat", ".", " ", "4, 1—11.");
    LentRendered();
  }

  lemma LentRendered()
    ensures BiblicalRefs.Render("", "Mt", "4,1-11") == "Mt 4,1-11"
  {
    assert "" + "Mt" == "Mt";
  }

  lemma LentRefs()
    ensures RefsOf("Mat. 4, 1—11.") == ["Mt 4,1-11"]
  {
    LentBodyChars();
    LentClean();
    RefsOfFragment("Mat. 4, 1—11.");
    LentReference();
  }

  lemma LentClean()
    ensures Clean("Mat. 4, 1—11.") == "Mat. 4, 1—11." && HasDigit("Mat. 4, 1—11.")
  {
    var b := "Mat. 4, 1—11.";
    LentBodyChars();
    RemoveCharsNone(b, {'(', ')'});
    TrimOfTrimmed(b);
    HasDigitAt(b);
  }

  lemma ExampleLentCitation()
    ensures Extract("(Ned. I. postní: Mat. 4, 1—11.)") == Citation(["Mt 4,1-11"], "Ned. I. postní")
  {
    LentSplit();
    LentLabelChars();
    LentBodyChars();
    LentKeyword();
    ExtractColonLabel("Ned. I. postní", " ", "Mat. 4, 1—11.");
    TrimOfTrimmed("Ned. I. postní");
    LentRefs();
  }

  /**
   * A citation that opens with "Epištola k" carries no liturgical label, and
   * its references come from what follows the "k".
   */
  lemma ExtractEpistolaK(k: char, sp: string, sp2: string, body: string)
    requires k == 'k' || k == 'K'
    requires AllSpace(sp) && AllSpace(sp2)
    requires body != [] && IsTrimmed(body) && NoLetterE(body)
    ensures Extract("(" + ("Epištola" + sp + [k] + sp2 + body) + ")") == Citation(RefsOf(body), "")
  {
    var t := "Epištola" + sp + [k] + sp2 + body;
    EpistolaKText(k, sp, sp2, body);
    EpistolaKBody(k, sp, sp2, body);
    ExtractSteps("(" + t + ")", t, "", t);
  }

  lemma EpistolaKText(k: char, sp: string, sp2: string, body: string)
    requires body != [] && IsTrimmed(body)
    ensures Unwrap("(" + ("Epištola" + sp + [k] + sp2 + body) + ")") == "Epištola" + sp + [k] + sp2 + body
    ensures SplitLiturgical("Epištola" + sp + [k] + sp2 + body) == ("", "Epištola" + sp + [k] + sp2 + body)
  {
    var t := "Epištola" + sp + [k] + sp2 + body;
    EpistolaEnds(sp, k, sp2, body);
    UnwrapParens(t);
    TrimOfTrimmed(t);
    UpperE();
    NoLabel(t);
  }

  lemma EpistolaKBody(k: char, sp: string, sp2: string, body: string)
    requires k == 'k' || k == 'K'
    requires AllSpace(sp) && AllSpace(sp2)
    requires body != [] && IsTrimmed(body) && NoLetterE(body)
    ensures RefBody("Epištola" + sp + [k] + sp2 + body) == body
  {
    EpistolaK(k, sp, sp2, body);
    LabelsAbsent(body);
    RefBodyPlain(body);
  }

  lemma EpistolaEnds(sp: string, k: char, sp2: string, body: string)
    requires body != [] && IsTrimmed(body)
    ensures IsTrimmed("Epištola" + sp + [k] + sp2 + body)
    ensures ("Epištola" + sp + [k] + sp2 + body)[0] == 'E'
  {
    var t := "Epištola" + sp + [k] + sp2 + body;
    assert t[0] == 'E';
    assert t[|t| - 1] == body[|body| - 1];
  }

  lemma UpperE()
    ensures !IsKeywordInitial(Upper('E'))
  {
  }

  // "(Epištola k Řím. 8, 12—17.)" is Romans 8,12-17 without a liturgical label.

  lemma RomansSplit()
    ensures "(Epištola k Řím. 8, 12—17.)" == "(" + ("Epištola" + " " + ['k'] + " " + "Řím. 8, 12—17.") + ")"
    ensures AllSpace(" ")
  {
  }

  lemma RomansBodyChars()
    ensures IsTrimmed("Řím. 8, 12—17.") && NoLetterE("Řím. 8, 12—17.") && IsDigit("Řím. 8, 12—17."[5])
    ensures forall k :: 0 <= k < |"Řím. 8, 12—17."| ==> !IsFragmentSep("Řím. 8, 12—17."[k]) && "Řím. 8, 12—17."[k] !in {'(', ')'}
  {
  }

  lemma RomansBookSplit()
    ensures "Řím. 8, 12—17." == "Řím" + "." + " " + "8, 12—17."
    ensures !IsSpace("8, 12—17."[0]) && !IsSpace("8, 12—17."[8])
    ensures BiblicalRefs.AllBookLetters("Řím") && !BiblicalRefs.AllRoman("Řím")
  {
    assert !BiblicalRefs.IsRomanChar("Řím"[0]);
  }

  lemma RomansVerses()
    ensures BiblicalRefs.NormalizeCv("8, 12—17.") == "8,12-17"
  {
    var a, x, y := "8,", "12", "17.";
    RomansPlain(a, x, y);
    BiblicalRefs.NormalizeCvDotted(a, x, y);
    RomansJoined(a, x, y);
  }

  lemma RomansPlain(a: string, x: string, y: string)
    requires a == "8," && x == "12" && y == "17."
    ensures BiblicalRefs.NoSpaceNoDash(a) && BiblicalRefs.NoSpaceNoDash(x) && BiblicalRefs.NoSpaceNoDash(y)
    ensures y != [] && y[|y| - 1] == '.'
  {
  }

  lemma RomansJoined(a: string, x: string, y: string)
    requires a == "8," && x == "12" && y == "17."
    ensures "8, 12—17." == a + " " + x + "—" + y
    ensures a + x + "-" + y[..|y| - 1] == "8,12-17"
  {
    assert y[..|y| - 1] == "17";
  }

  lemma RomansOneLine()
    ensures NoLineTerminator("8, 12—17.")
  {
    var a, b, c := "8,", " 12", "—17.";
    assert NoLineTerminator(a) && NoLineTerminator(b) && NoLineTerminator(c);
    NoLineTerminatorConcat(a, b);
    NoLineTerminatorConcat(a + b, c);
    assert "8, 12—17." == a + b + c;
  }

  lemma RomansBook()
    ensures LookupBook("Řím") == "Ř"
  {
    assert LowerStr("Řím") == "řím";
    LookupOnce("Řím");
  }

  lemma RomansRendered()
    ensures BiblicalRefs.Render("", "Ř", "8,12-17") == "Ř 8,12-17"
  {
    assert "" + "Ř" == "Ř";
  }

  lemma RomansReference()
    ensures Normalize("Řím. 8, 12—17.") == "Ř 8,12-17"
  {
    RomansBookSplit();
    RomansVerses();
    RomansOneLine();
    RomansBook();
    assert AllSpace(" ");
    NormalizeBookForm("Řím", ".", " ", "8, 12—17.");
    RomansRendered();
  }

  lemma RomansClean()
    ensures Clean("Řím. 8, 12—17.") == "Řím. 8, 12—17." && HasDigit("Řím. 8, 12—17.")
  {
    var b := "Řím. 8, 12—17.";
    RomansBodyChars();
    RemoveCharsNone(b, {'(', ')'});
    TrimOfTrimmed(b);
    HasDigitAt(b);
  }

  lemma RomansRefs()
    ensures RefsOf("Řím. 8, 12—17.") == ["Ř 8,12-17"]
  {
    RomansBodyChars();
    RomansClean();
    RefsOfFragment("Řím. 8, 12—17.");
    RomansReference();
  }

  lemma ExampleEpistolaCitation()
    ensures Extract("(Epištola k Řím. 8, 12—17.)") == Citation(["Ř 8,12-17"], "")
  {
    RomansSplit();
    RomansBodyChars();
    ExtractEpistolaK('k', " ", " ", "Řím. 8, 12—17.");
    RomansRefs();
  }

  // "(Epištola Kol. 3, 12—17.)": the case-blind "k" of the label pattern takes
  // the K of "Kol.", and what is left is the unknown book "ol".

  lemma ColossiansSplit()
    ensures "(Epištola Kol. 3, 12—17.)" == "(" + ("Epištola" + " " + ['K'] + "" + "ol. 3, 12—17.") + ")"
    ensures AllSpace(" ") && AllSpace("")
  {
  }

  lemma ColossiansBodyChars()
    ensures IsTrimmed("ol. 3, 12—17.") && NoLetterE("ol. 3, 12—17.") && IsDigit("ol. 3, 12—17."[4])
    ensures forall k :: 0 <= k < |"ol. 3, 12—17."| ==> !IsFragmentSep("ol. 3, 12—17."[k]) && "ol. 3, 12—17."[k] !in {'(', ')'}
  {
  }

  lemma ColossiansBookSplit()
    ensures "ol. 3, 12—17." == "ol" + "." + " " + "3, 12—17."
    ensures !IsSpace("3, 12—17."[0]) && !IsSpace("3, 12—17."[8])
    ensures BiblicalRefs.AllBookLetters("ol") && !BiblicalRefs.AllRoman("ol")
  {
    assert !BiblicalRefs.IsRomanChar("ol"[0]);
  }

  lemma ColossiansVerses()
    ensures BiblicalRefs.NormalizeCv("3, 12—17.") == "3,12-17"
  {
    assert BiblicalRefs.NoSpaceNoDash("3,") && BiblicalRefs.NoSpaceNoDash("12") && BiblicalRefs.NoSpaceNoDash("17.");
    BiblicalRefs.NormalizeCvDotted("3,", "12", "17.");
    assert "3, 12—17." == "3," + " " + "12" + "—" + "17.";
    assert "17."[..2] == "17";
    assert "3," + "12" + "-" + "17" == "3,12-17";
  }

  lemma ColossiansOneLine()
    ensures NoLineTerminator("3, 12—17.")
  {
    var a, b, c := "3,", " 12", "—17.";
    assert NoLineTerminator(a) && NoLineTerminator(b) && NoLineTerminator(c);
    NoLineTerminatorConcat(a, b);
    NoLineTerminatorConcat(a + b, c);
    assert "3, 12—17." == a + b + c;
  }

  /** "ol" is no alias, with or without a dot, so the token stays as it is. */
  lemma ColossiansBook()
    ensures LookupBook("ol") == "ol"
  {
    assert LowerStr("ol") == "ol";
    assert OldAlias("ol").None?;
    LookupOnce("ol");
  }

  lemma ColossiansRendered()
    ensures BiblicalRefs.Render("", "ol", "3,12-17") == "ol 3,12-17"
  {
    assert "" + "ol" == "ol";
  }

  lemma ColossiansReference()
    ensures Normalize("ol. 3, 12—17.") == "ol 3,12-17"
  {
    ColossiansBookSplit();
    ColossiansVerses();
    ColossiansOneLine();
    ColossiansBook();
    assert AllSpace(" ");
    NormalizeBookForm("ol", ".", " ", "3, 12—17.");
    ColossiansRendered();
  }

  lemma ColossiansClean()
    ensures Clean("ol. 3, 12—17.") == "ol. 3, 12—17." && HasDigit("ol. 3, 12—17.")
  {
    var b := "ol. 3, 12—17.";
    ColossiansBodyChars();
    RemoveCharsNone(b, {'(', ')'});
    TrimOfTrimmed(b);
    HasDigitAt(b);
  }

  lemma ColossiansRefs()
    ensures RefsOf("ol. 3, 12—17.") == ["ol 3,12-17"]
  {
    ColossiansBodyChars();
    ColossiansClean();
    RefsOfFragment("ol. 3, 12—17.");
    ColossiansReference();
  }

  lemma ExampleCaseBlindK()
    ensures Extract("(Epištola Kol. 3, 12—17.)") == Citation(["ol 3,12-17"], "")
  {
    ColossiansSplit();
    ColossiansBodyChars();
    ExtractEpistolaK('K', " ", "", "ol. 3, 12—17.");
    ColossiansRefs();
  }

  // The second label pattern, on a Sunday after Trinity written "Ned. 25. po sv. D.".

  /** The label of the `num`-th Sunday after Trinity ("po sv. Duchu"). */
  function SaintDay(num: string): string {
    "Ned. " + num + ". po sv. D."
  }

  lemma SaintDayShape(num: string, body: string)
    requires num != [] && AllDigits(num)
    ensures var s, n := SaintDay(num) + " — " + body, |num|;
      |s| == 19 + n + |body| && s[..3] == "Ned" && s[3] == '.' && s[4] == ' '
      && (forall k :: 5 <= k < 5 + n ==> IsDigit(s[k])) && s[5 + n] == '.' && s[6 + n] == ' '
      && s[7 + n..9 + n] == "po" && s[9 + n] == ' ' && s[10 + n..13 + n] == "sv." && s[13 + n] == ' '
      && s[14 + n] == 'D' && s[15 + n] == '.' && s[16 + n] == ' ' && s[17 + n] == '—' && s[18 + n] == ' '
      && s[19 + n..] == body && s[..16 + n] == SaintDay(num)
  {
    var s, n := SaintDay(num) + " — " + body, |num|;
    var t := "Ned. " + num;
    assert SaintDay(num) == t + ". po sv. D.";
    assert s == t + (". po sv. D." + " — " + body);
    assert forall k :: 5 <= k < 5 + n ==> s[k] == num[k - 5];
  }

  lemma SaintDayNoColon(num: string, body: string)
    requires AllDigits(num)
    requires forall k :: 0 <= k < |body| ==> NotColonOrParen(body[k])
    ensures forall k :: 0 <= k < |SaintDay(num) + " — " + body| ==> NotColonOrParen((SaintDay(num) + " — " + body)[k])
  {
    var s := SaintDay(num) + " — " + body;
    var pre := "Ned. " + num;
    var post := ". po sv. D." + " — ";
    assert s == pre + post + body;
    forall k | 0 <= k < |s| ensures NotColonOrParen(s[k]) {
      if k < 5 {
        assert s[k] == "Ned. "[k];
      } else if k < |pre| {
        assert s[k] == num[k - 5];
      } else if k < |pre| + |post| {
        assert s[k] == post[k - |pre|];
      } else {
        assert s[k] == body[k - |pre| - |post|];
      }
    }
  }

  lemma NedNumberStep(s: string, n: nat)
    requires 0 < n && 7 + n <= |s|
    requires s[..3] == "Ned" && s[3] == '.' && s[4] == ' '
    requires forall k :: 5 <= k < 5 + n ==> IsDigit(s[k])
    requires s[5 + n] == '.' && s[6 + n] == ' ' && (7 + n == |s| || !IsSpace(s[7 + n]))
    ensures NedNumber(s) == Some(7 + n)
  {
    SpanWhileStops(s, 4, 5, IsSpace);
    SpanWhileStops(s, 5, 5 + n, IsDigit);
    SpanWhileStops(s, 6 + n, 7 + n, IsSpace);
  }

  lemma PoStep(s: string, q: nat)
    requires q + 3 <= |s| && s[q..q + 2] == "po" && s[q + 2] == ' ' && (q + 3 == |s| || !IsSpace(s[q + 3]))
    ensures PoAt(s, q) == Some(q + 3)
  {
    assert s[q..][..2] == s[q..q + 2];
    SpanWhileStops(s, q + 2, q + 3, IsSpace);
  }

  lemma SaintStep(s: string, q: nat)
    requires q + 6 <= |s| && s[q..q + 3] == "sv." && s[q + 3] == ' ' && s[q + 4] == 'D' && s[q + 5] == '.'
    ensures SeasonAt(s, q) == Some(q + 6)
  {
    assert s[q..][..3] == s[q..q + 3];
    SpanWhileStops(s, q + 3, q + 4, IsSpace);
    assert s[q + 4..][..1] == [s[q + 4]];
  }

  lemma DelimStep(s: string, a: nat)
    requires a + 3 <= |s| && s[a] == ' ' && s[a + 1] == '—' && s[a + 2] == ' ' && (a + 3 == |s| || !IsSpace(s[a + 3]))
    ensures LabelEnd(s, a) == Some((a, a + 3))
  {
    SpanWhileStops(s, a, a + 1, NotLabelDelim);
    assert SpaceRunStart(s, a, a + 1) == a;
    SpanWhileStops(s, a + 2, a + 3, IsSpace);
  }

  lemma ColonNone(s: string)
    requires forall k :: 0 <= k < |s| ==> NotColonOrParen(s[k])
    ensures ColonLabel(s).None?
  {
    SpanWhileStops(s, 0, |s|, NotColonOrParen);
  }

  lemma SaintDaySeason(num: string, body: string)
    requires num != [] && AllDigits(num)
    requires body != [] && !IsSpace(body[0])
    ensures var s := SaintDay(num) + " — " + body;
      19 + |num| <= |s| && SeasonLabel(s) == Some((SaintDay(num), 19 + |num|)) && s[19 + |num|..] == body
  {
    var s, n := SaintDay(num) + " — " + body, |num|;
    SaintDayShape(num, body);
    NedNumberStep(s, n);
    PoStep(s, 7 + n);
    SaintStep(s, 10 + n);
    DelimStep(s, 16 + n);
    assert AfterSeason(s, 10 + n) == Some((16 + n, 19 + n));
    LabelAfterPo(s, 7 + n, 10 + n, 16 + n, 19 + n);
  }

  /** A Sunday number, `po`, and after it a season alternative ending at `k` and a delimiter ending at `e`. */
  lemma LabelAfterPo(s: string, p: nat, p1: nat, k: nat, e: nat)
    requires p1 <= |s| && k <= e <= |s|
    requires NedNumber(s) == Some(p) && PoAt(s, p) == Some(p1)
    requires AfterSeason(s, p1) == Some((k, e))
    ensures SeasonLabel(s) == Some((s[..k], e))
  {
  }

  lemma SaintDayTrimmed(num: string)
    ensures Trim(SaintDay(num)) == SaintDay(num)
  {
    var d := SaintDay(num);
    assert d[0] == 'N' && d[|d| - 1] == '.';
    TrimOfTrimmed(d);
  }

  /**
   * "Ned. N. po sv. D. — " before a reference: the second pattern takes the
   * Sunday as the liturgical label and drops the dash with its spaces.
   */
  lemma SaintDayLabel(num: string, body: string)
    requires num != [] && AllDigits(num)
    requires body != [] && !IsSpace(body[0])
    requires forall k :: 0 <= k < |body| ==> NotColonOrParen(body[k])
    ensures SplitLiturgical(SaintDay(num) + " — " + body) == (SaintDay(num), body)
  {
    var s := SaintDay(num) + " — " + body;
    SaintDayNoColon(num, body);
    ColonNone(s);
    SaintDaySeason(num, body);
    SaintDayTrimmed(num);
  }

  lemma SaintDayText(num: string, body: string)
    requires body != [] && IsTrimmed(body)
    ensures Unwrap("(" + (SaintDay(num) + " — " + body) + ")") == SaintDay(num) + " — " + body
  {
    var t := SaintDay(num) + " — " + body;
    assert IsTrimmed(t) by {
      assert t[0] == 'N' && t[|t| - 1] == body[|body| - 1];
    }
    UnwrapParens(t);
    TrimOfTrimmed(t);
  }

  /** The whole citation "(Ned. N. po sv. D. — reference)". */
  lemma ExtractSaintDay(num: string, body: string)
    requires num != [] && AllDigits(num)
    requires body != [] && IsTrimmed(body) && NoLetterE(body)
    requires forall k :: 0 <= k < |body| ==> NotColonOrParen(body[k])
    ensures Extract("(" + (SaintDay(num) + " — " + body) + ")") == Citation(RefsOf(body), SaintDay(num))
  {
    var t := SaintDay(num) + " — " + body;
    SaintDayText(num, body);
    SaintDayLabel(num, body);
    RefBodyPlain(body);
    ExtractSteps("(" + t + ")", t, SaintDay(num), body);
  }
}
