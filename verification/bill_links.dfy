/**
 * `govTrackType` and the three link builders of `Bill`: THOMAS, OpenCongress
 * and GovTrack pages for a bill given by its type code, number and session.
 */
module BillLinks {
  import opened Options
  import opened Ascii
  import opened Decimal
  import opened BillCode

  /** GovTrack's abbreviation of each bill type. */
  function GovTrackCode(t: BillType): (s: string)
    ensures 0 < |s| <= 2 && AllLower(s)
    ensures s[0] == TypeCode(t)[0]
  {
    match t
    case HR => "h"
    case HRes => "hr"
    case HJRes => "hj"
    case HCRes => "hc"
    case S => "s"
    case SRes => "sr"
    case SJRes => "sj"
    case SCRes => "sc"
  }

  /** `govTrackType`: the eight known types are abbreviated, anything else passes through. */
  function GovTrackType(billType: string): (r: string)
    ensures forall t: BillType :: billType == TypeCode(t) ==> r == GovTrackCode(t)
    ensures (forall t: BillType :: billType != TypeCode(t)) ==> r == billType
  {
    match ParseType(billType)
    case Some(t) => GovTrackCode(t)
    case None => billType
  }

  /** The eight abbreviations are pairwise distinct. */
  lemma GovTrackCodeInjective(t1: BillType, t2: BillType)
    ensures GovTrackCode(t1) == GovTrackCode(t2) <==> t1 == t2
  {
  }

  /** Known types never collide after translation. */
  lemma GovTrackTypeInjective(type1: string, type2: string)
    requires ParseType(type1).Some? && ParseType(type2).Some?
    ensures GovTrackType(type1) == GovTrackType(type2) <==> type1 == type2
  {
    GovTrackCodeInjective(ParseType(type1).value, ParseType(type2).value);
  }

  /** Translating twice is not translating once: "hres" becomes "hr", which becomes "h". */
  lemma GovTrackTypeNotIdempotent()
    ensures GovTrackType("hres") == "hr"
    ensures GovTrackType(GovTrackType("hres")) == "h"
  {
    ParseTypeCode(HRes);
    ParseTypeCode(HR);
  }

  const ThomasPrefix: string := "http://thomas.loc.gov/cgi-bin/query/z?c"
  const OpenCongressPrefix: string := "http://www.opencongress.org/bill/"
  const OpenCongressSuffix: string := "/show"
  const GovTrackPrefix: string := "http://www.govtrack.us/congress/bill.xpd?bill="

  /** `thomasUrl`: the raw type code, not the GovTrack one. */
  function ThomasUrl(billType: string, number: int, session: int): string {
    ThomasPrefix + IntToString(session) + ":" + billType + IntToString(number) + ":"
  }

  /** `openCongressUrl`: session first, then the GovTrack type and the number. */
  function OpenCongressUrl(billType: string, number: int, session: int): string {
    OpenCongressPrefix + IntToString(session) + "-" + GovTrackType(billType) + IntToString(number) + OpenCongressSuffix
  }

  /** `govTrackUrl`: the GovTrack type, then the session, then the number. */
  function GovTrackUrl(billType: string, number: int, session: int): string {
    GovTrackPrefix + GovTrackType(billType) + IntToString(session) + "-" + IntToString(number)
  }

  /** Two links with the same frame and a separator the left parts lack split back the same way. */
  lemma Unframe(prefix: string, a1: string, b1: string, a2: string, b2: string, sep: char, suffix: string)
    requires sep !in a1 && sep !in a2
    requires prefix + (a1 + [sep] + b1) + suffix == prefix + (a2 + [sep] + b2) + suffix
    ensures a1 == a2 && b1 == b2
  {
    CancelSuffix(prefix + (a1 + [sep] + b1), prefix + (a2 + [sep] + b2), suffix);
    CancelPrefix(prefix, a1 + [sep] + b1, a2 + [sep] + b2);
    SplitAtSeparator(a1, b1, a2, b2, sep);
  }

  /** Type letters followed by a rendered number can be split back apart. */
  lemma LettersThenNumber(p1: string, n1: nat, p2: string, n2: nat)
    requires |p1| > 0 && AllLower(p1) && |p2| > 0 && AllLower(p2)
    requires p1 + NatToString(n1) == p2 + NatToString(n2)
    ensures p1 == p2 && n1 == n2
  {
    var s := p1 + NatToString(n1);
    SplitUnique(s, p1, NatToString(n1), p2, NatToString(n2));
    NatToStringInjective(n1, n2);
  }

  /**
   * A THOMAS link identifies the bill when the type is a word of lower-case
   * letters and the number and session are not negative.
   */
  lemma ThomasUrlInjective(type1: string, number1: nat, session1: nat, type2: string, number2: nat, session2: nat)
    requires |type1| > 0 && AllLower(type1) && |type2| > 0 && AllLower(type2)
    ensures ThomasUrl(type1, number1, session1) == ThomasUrl(type2, number2, session2)
        <==> type1 == type2 && number1 == number2 && session1 == session2
  {
    var s1, s2 := NatToString(session1), NatToString(session2);
    var m1, m2 := type1 + NatToString(number1), type2 + NatToString(number2);
    assert ThomasUrl(type1, number1, session1) == ThomasPrefix + (s1 + [':'] + m1) + ":";
    assert ThomasUrl(type2, number2, session2) == ThomasPrefix + (s2 + [':'] + m2) + ":";
    if ThomasUrl(type1, number1, session1) == ThomasUrl(type2, number2, session2) {
      NatToStringHasNo(session1, ':');
      NatToStringHasNo(session2, ':');
      Unframe(ThomasPrefix, s1, m1, s2, m2, ':', ":");
      NatToStringInjective(session1, session2);
      LettersThenNumber(type1, number1, type2, number2);
    }
  }

  /** Appending keeps a prefix a prefix. */
  lemma PrefixExtends(prefix: string, s: string, more: string)
    requires prefix <= s
    ensures prefix <= s + more
  {
    assert (s + more)[..|prefix|] == s[..|prefix|];
  }

  /** Whatever the type string, a THOMAS link has the fixed prefix and ends in ':'. */
  lemma ThomasUrlFrame(billType: string, number: int, session: int)
    ensures ThomasPrefix <= ThomasUrl(billType, number, session)
    ensures ThomasUrl(billType, number, session)[|ThomasUrl(billType, number, session)| - 1] == ':'
  {
    var x1 := ThomasPrefix + IntToString(session);
    var x2 := x1 + ":";
    var x3 := x2 + billType;
    var x4 := x3 + IntToString(number);
    PrefixExtends(ThomasPrefix, ThomasPrefix, IntToString(session));
    PrefixExtends(ThomasPrefix, x1, ":");
    PrefixExtends(ThomasPrefix, x2, billType);
    PrefixExtends(ThomasPrefix, x3, IntToString(number));
    PrefixExtends(ThomasPrefix, x4, ":");
  }

  /** Whatever the type string, an OpenCongress link has the fixed prefix and ends in "/show". */
  lemma OpenCongressUrlFrame(billType: string, number: int, session: int)
    ensures OpenCongressPrefix <= OpenCongressUrl(billType, number, session)
    ensures OpenCongressUrl(billType, number, session)[|OpenCongressUrl(billType, number, session)| - |OpenCongressSuffix|..]
         == OpenCongressSuffix
  {
    var g := GovTrackType(billType);
    var x1 := OpenCongressPrefix + IntToString(session);
    var x2 := x1 + "-";
    var x3 := x2 + g;
    var x4 := x3 + IntToString(number);
    PrefixExtends(OpenCongressPrefix, OpenCongressPrefix, IntToString(session));
    PrefixExtends(OpenCongressPrefix, x1, "-");
    PrefixExtends(OpenCongressPrefix, x2, g);
    PrefixExtends(OpenCongressPrefix, x3, IntToString(number));
    PrefixExtends(OpenCongressPrefix, x4, OpenCongressSuffix);
  }

  /** Whatever the type string, a GovTrack link has the fixed prefix and ends in the number's digits. */
  lemma GovTrackUrlFrame(billType: string, number: nat, session: int)
    ensures GovTrackPrefix <= GovTrackUrl(billType, number, session)
    ensures GovTrackUrl(billType, number, session)[|GovTrackUrl(billType, number, session)| - |NatToString(number)|..]
         == NatToString(number)
  {
    var g := GovTrackType(billType);
    var x1 := GovTrackPrefix + g;
    var x2 := x1 + IntToString(session);
    var x3 := x2 + "-";
    PrefixExtends(GovTrackPrefix, GovTrackPrefix, g);
    PrefixExtends(GovTrackPrefix, x1, IntToString(session));
    PrefixExtends(GovTrackPrefix, x2, "-");
    PrefixExtends(GovTrackPrefix, x3, IntToString(number));
    assert IntToString(number) == NatToString(number);
  }

  /** Proof helper: an OpenCongress link regrouped around its '-' separator. */
  lemma OpenCongressUrlShape(billType: string, number: nat, session: nat)
    ensures OpenCongressUrl(billType, number, session)
         == OpenCongressPrefix + (NatToString(session) + ['-'] + (GovTrackType(billType) + NatToString(number))) + OpenCongressSuffix
  {
    var s, g, n := NatToString(session), GovTrackType(billType), NatToString(number);
    assert IntToString(session) == s && IntToString(number) == n;
    assert OpenCongressPrefix + s + "-" + g + n + OpenCongressSuffix
        == OpenCongressPrefix + (s + ['-'] + (g + n)) + OpenCongressSuffix;
  }

  /**
   * Proof helper: a GovTrack link regrouped around its '-' separator. The
   * link has no fixed suffix, so the suffix slot of `Unframe` is empty.
   */
  lemma GovTrackUrlShape(billType: string, number: nat, session: nat)
    ensures GovTrackUrl(billType, number, session)
         == GovTrackPrefix + ((GovTrackType(billType) + NatToString(session)) + ['-'] + NatToString(number)) + []
  {
    var g, s, n := GovTrackType(billType), NatToString(session), NatToString(number);
    assert IntToString(session) == s && IntToString(number) == n;
    assert GovTrackPrefix + g + s + "-" + n == GovTrackPrefix + ((g + s) + ['-'] + n) + [];
  }

  /** An OpenCongress link identifies the bill among the eight known types. */
  lemma OpenCongressUrlInjective(t1: BillType, number1: nat, session1: nat, t2: BillType, number2: nat, session2: nat)
    ensures OpenCongressUrl(TypeCode(t1), number1, session1) == OpenCongressUrl(TypeCode(t2), number2, session2)
        <==> t1 == t2 && number1 == number2 && session1 == session2
  {
    var u1, u2 := OpenCongressUrl(TypeCode(t1), number1, session1), OpenCongressUrl(TypeCode(t2), number2, session2);
    if u1 == u2 {
      var g1, g2 := GovTrackType(TypeCode(t1)), GovTrackType(TypeCode(t2));
      OpenCongressUrlShape(TypeCode(t1), number1, session1);
      OpenCongressUrlShape(TypeCode(t2), number2, session2);
      NatToStringHasNo(session1, '-');
      NatToStringHasNo(session2, '-');
      Unframe(OpenCongressPrefix, NatToString(session1), g1 + NatToString(number1),
              NatToString(session2), g2 + NatToString(number2), '-', OpenCongressSuffix);
      NatToStringInjective(session1, session2);
      LettersThenNumber(g1, number1, g2, number2);
      GovTrackCodeInjective(t1, t2);
    }
  }

  /** A GovTrack link identifies the bill among the eight known types. */
  lemma GovTrackUrlInjective(t1: BillType, number1: nat, session1: nat, t2: BillType, number2: nat, session2: nat)
    ensures GovTrackUrl(TypeCode(t1), number1, session1) == GovTrackUrl(TypeCode(t2), number2, session2)
        <==> t1 == t2 && number1 == number2 && session1 == session2
  {
    var u1, u2 := GovTrackUrl(TypeCode(t1), number1, session1), GovTrackUrl(TypeCode(t2), number2, session2);
    if u1 == u2 {
      var g1, g2 := GovTrackType(TypeCode(t1)), GovTrackType(TypeCode(t2));
      GovTrackUrlShape(TypeCode(t1), number1, session1);
      GovTrackUrlShape(TypeCode(t2), number2, session2);
      assert '-' !in g1 + NatToString(session1) && '-' !in g2 + NatToString(session2);
      Unframe(GovTrackPrefix, g1 + NatToString(session1), NatToString(number1),
              g2 + NatToString(session2), NatToString(number2), '-', []);
      NatToStringInjective(number1, number2);
      LettersThenNumber(g1, session1, g2, session2);
      GovTrackCodeInjective(t1, t2);
    }
  }

  /**
   * Outside the known types the links stop identifying bills: the unknown
   * type "h" passes through to the abbreviation of "hr".
   */
  lemma LinksOutsideKnownTypes(number: int, session: int)
    ensures GovTrackUrl("h", number, session) == GovTrackUrl("hr", number, session)
    ensures OpenCongressUrl("h", number, session) == OpenCongressUrl("hr", number, session)
  {
    ParseTypeCode(HR);
    assert GovTrackType("h") == "h" == GovTrackType("hr");
  }

  /** A raw THOMAS type that ends in a digit runs into the number. */
  lemma ThomasUrlAmbiguous(session: int)
    ensures ThomasUrl("hr1", 2, session) == ThomasUrl("hr", 12, session)
  {
    var s := IntToString(session);
    assert IntToString(2) == "2";
    assert IntToString(12) == NatToString(1) + [DigitChar(2)] == "12";
    assert ThomasUrl("hr1", 2, session) == ThomasPrefix + s + ":" + "hr12" + ":";
    assert ThomasUrl("hr", 12, session) == ThomasPrefix + s + ":" + "hr12" + ":";
  }
}
