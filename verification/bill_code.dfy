/**
 * Bill codes as users type them ("H.R. 3200", "hr3200", "S.J.Res.4"):
 * the normaliser shared by `codeToBillId`, `formatCode` and
 * `formatCodeShort`, the pattern `^([a-z]+)(\d+)$` those two formatters
 * match, the eight bill types, and the display labels.
 */
module BillCode {
  import opened Options
  import opened Ascii
  import opened Decimal
  import opened Congress

  // ---------------------------------------------------------------- normaliser

  /** `code.toLowerCase().replace(" ", "").replace(".", "")`. */
  function Normalize(code: string): (r: string)
    ensures ' ' !in r && '.' !in r && NoUpper(r)
  {
    var lowered := ToLower(code);
    var spaceless := RemoveAll(lowered, ' ');
    RemoveAllNoUpper(lowered, ' ');
    RemoveAllNoUpper(spaceless, '.');
    RemoveAll(spaceless, '.')
  }

  /** A string is already normal when it has no space, no dot and no upper-case letter. */
  predicate IsNormal(s: string) { ' ' !in s && '.' !in s && NoUpper(s) }

  /** Normal strings are exactly the fixed points of the normaliser. */
  lemma NormalizeFixes(s: string)
    ensures Normalize(s) == s <==> IsNormal(s)
  {
    if IsNormal(s) {
      ToLowerNoUpper(s);
      RemoveAllAbsent(s, ' ');
      RemoveAllAbsent(s, '.');
    }
  }

  lemma NormalizeIdempotent(code: string)
    ensures Normalize(Normalize(code)) == Normalize(code)
  {
    NormalizeFixes(Normalize(code));
  }

  /**
   * The normaliser read one character at a time, from position `i` on:
   * spaces and dots are dropped, every other character is lower-cased.
   */
  function NormalizeFrom(code: string, i: nat): string
    requires i <= |code|
    decreases |code| - i
  {
    if i == |code| then []
    else (if code[i] == ' ' || code[i] == '.' then [] else [LowerChar(code[i])]) + NormalizeFrom(code, i + 1)
  }

  lemma NormalizeConcat(a: string, b: string)
    ensures Normalize(a + b) == Normalize(a) + Normalize(b)
  {
    ToLowerConcat(a, b);
    RemoveAllConcat(ToLower(a), ToLower(b), ' ');
    RemoveAllConcat(RemoveAll(ToLower(a), ' '), RemoveAll(ToLower(b), ' '), '.');
  }

  /** The three chained passes equal the single character-by-character pass. */
  lemma {:induction false} NormalizeIsByChar(code: string, i: nat)
    requires i <= |code|
    ensures Normalize(code[i..]) == NormalizeFrom(code, i)
    decreases |code| - i
  {
    if i < |code| {
      var c := code[i];
      assert code[i..] == [c] + code[i + 1..];
      NormalizeConcat([c], code[i + 1..]);
      assert ToLower([c]) == [LowerChar(c)];
      NormalizeIsByChar(code, i + 1);
    }
  }

  // ---------------------------------------------------------------- the pattern

  /** The two groups of `^([a-z]+)(\d+)$`. */
  datatype Code = Code(prefix: string, number: string)

  /** `s` is `prefix` followed by `number` and matches `^([a-z]+)(\d+)$` with these groups. */
  predicate IsSplit(s: string, prefix: string, number: string) {
    && s == prefix + number
    && |prefix| > 0 && AllLower(prefix)
    && |number| > 0 && AllDigits(number)
  }

  /** Length of the longest prefix of `s` made of `[a-z]` (the greedy first group). */
  function LetterRun(s: string): (n: nat)
    ensures n <= |s| && AllLower(s[..n])
    ensures n < |s| ==> !IsLower(s[n])
  {
    if s == [] || !IsLower(s[0]) then 0 else 1 + LetterRun(s[1..])
  }

  /** `Matcher.matches()` on the pattern, returning both groups on a match. */
  function MatchCode(s: string): (m: Option<Code>)
    ensures m.Some? ==> IsSplit(s, m.value.prefix, m.value.number)
  {
    var n := LetterRun(s);
    if 0 < n < |s| && AllDigits(s[n..]) then Some(Code(s[..n], s[n..])) else None
  }

  lemma {:induction false} LetterRunOf(prefix: string, rest: string)
    requires AllLower(prefix)
    requires rest == [] || !IsLower(rest[0])
    ensures LetterRun(prefix + rest) == |prefix|
  {
    if prefix != [] {
      assert (prefix + rest)[1..] == prefix[1..] + rest;
      LetterRunOf(prefix[1..], rest);
    } else {
      assert prefix + rest == rest;
    }
  }

  /** The match succeeds with groups `prefix`, `number` exactly when `s` splits that way. */
  lemma MatchCodeIff(s: string, prefix: string, number: string)
    ensures MatchCode(s) == Some(Code(prefix, number)) <==> IsSplit(s, prefix, number)
  {
    if IsSplit(s, prefix, number) {
      LetterRunOf(prefix, number);
      assert s[..|prefix|] == prefix && s[|prefix|..] == number;
    }
  }

  /** A code splits in at most one way: the letters and the digits are both determined. */
  lemma SplitUnique(s: string, p1: string, d1: string, p2: string, d2: string)
    requires IsSplit(s, p1, d1) && IsSplit(s, p2, d2)
    ensures p1 == p2 && d1 == d2
  {
    MatchCodeIff(s, p1, d1);
    MatchCodeIff(s, p2, d2);
  }

  // ---------------------------------------------------------------- bill types

  /** The eight bill types of the if/else-if chains, in their order there. */
  datatype BillType = HR | HRes | HJRes | HCRes | S | SRes | SJRes | SCRes {
    /** Joint and concurrent resolutions: the types whose long and short labels differ. */
    predicate IsJointOrConcurrent() { this in {HJRes, HCRes, SJRes, SCRes} }
  }

  /** The lower-case type code the chains compare against. */
  function TypeCode(t: BillType): (s: string)
    ensures |s| > 0 && AllLower(s)
  {
    match t
    case HR => "hr"
    case HRes => "hres"
    case HJRes => "hjres"
    case HCRes => "hcres"
    case S => "s"
    case SRes => "sres"
    case SJRes => "sjres"
    case SCRes => "scres"
  }

  /** Which of the eight `equals` tests a string passes, if any. */
  function ParseType(s: string): (t: Option<BillType>)
    ensures t.Some? ==> TypeCode(t.value) == s
    ensures t.None? ==> forall b: BillType :: TypeCode(b) != s
  {
    if s == "hr" then Some(HR)
    else if s == "hres" then Some(HRes)
    else if s == "hjres" then Some(HJRes)
    else if s == "hcres" then Some(HCRes)
    else if s == "s" then Some(S)
    else if s == "sres" then Some(SRes)
    else if s == "sjres" then Some(SJRes)
    else if s == "scres" then Some(SCRes)
    else None
  }

  lemma ParseTypeCode(t: BillType)
    ensures ParseType(TypeCode(t)) == Some(t)
  {
  }

  // ---------------------------------------------------------------- formatters

  /** `formatCode` prints the long labels, `formatCodeShort` the abbreviated ones. */
  datatype Style = Long | Short

  function Label(style: Style, t: BillType): string {
    match (style, t)
    case (_, HR) => "H.R. "
    case (_, HRes) => "H. Res. "
    case (Long, HJRes) => "H. Joint Res. "
    case (Long, HCRes) => "H. Con. Res. "
    case (Short, HJRes) => "H.J. Res. "
    case (Short, HCRes) => "H.C. Res. "
    case (_, S) => "S. "
    case (_, SRes) => "S. Res. "
    case (Long, SJRes) => "S. Joint Res. "
    case (Long, SCRes) => "S. Con. Res. "
    case (Short, SJRes) => "S.J. Res. "
    case (Short, SCRes) => "S.C. Res. "
  }

  /** The recognised bill type and number of a user-entered code, if it has one. */
  function Recognize(code: string): (r: Option<(BillType, string)>)
    ensures r.Some? ==> IsSplit(Normalize(code), TypeCode(r.value.0), r.value.1)
  {
    match MatchCode(Normalize(code))
    case None => None
    case Some(m) =>
      match ParseType(m.prefix)
      case None => None
      case Some(t) => Some((t, m.number))
  }

  /** The shared body of `formatCode` and `formatCodeShort`. */
  function Format(code: string, style: Style): string {
    match Recognize(code)
    case None => Normalize(code)
    case Some((t, number)) => Label(style, t) + number
  }

  function FormatCode(code: string): string { Format(code, Long) }

  function FormatCodeShort(code: string): string { Format(code, Short) }

  /** A code that does not match the pattern is printed in its normalised form. */
  lemma FormatNoMatch(code: string, style: Style)
    requires forall p, d :: !IsSplit(Normalize(code), p, d)
    ensures Format(code, style) == Normalize(code)
  {
  }

  /** A code whose letters are one of the eight types is printed as that type's label and its digits, verbatim. */
  lemma FormatKnown(code: string, style: Style, t: BillType, number: string)
    requires IsSplit(Normalize(code), TypeCode(t), number)
    ensures Recognize(code) == Some((t, number))
    ensures Format(code, style) == Label(style, t) + number
  {
    MatchCodeIff(Normalize(code), TypeCode(t), number);
    ParseTypeCode(t);
  }

  /** A code that matches the pattern with letters of no known type is printed in its normalised form. */
  lemma FormatUnknownPrefix(code: string, style: Style, prefix: string, number: string)
    requires IsSplit(Normalize(code), prefix, number)
    requires forall t: BillType :: TypeCode(t) != prefix
    ensures Recognize(code) == None
    ensures Format(code, style) == Normalize(code)
  {
    MatchCodeIff(Normalize(code), prefix, number);
  }

  /** The two formatters disagree exactly on joint and concurrent resolutions. */
  lemma ShortDiffersFromLong(code: string)
    ensures FormatCodeShort(code) != FormatCode(code)
        <==> Recognize(code).Some? && Recognize(code).value.0.IsJointOrConcurrent()
  {
    match Recognize(code)
    case None =>
    case Some((t, number)) =>
      if t.IsJointOrConcurrent() {
        assert |Label(Long, t)| != |Label(Short, t)|;
      }
  }

  /** `formatCodeShort` saves space: it never prints more than `formatCode`. */
  lemma ShortIsShorter(code: string)
    ensures |FormatCodeShort(code)| <= |FormatCode(code)|
    ensures |FormatCodeShort(code)| < |FormatCode(code)|
        <==> Recognize(code).Some? && Recognize(code).value.0.IsJointOrConcurrent()
  {
    match Recognize(code)
    case None =>
    case Some((t, number)) =>
      LabelLengths(t);
  }

  /** A short label is never longer than the long one, and shorter exactly where they differ. */
  lemma LabelLengths(t: BillType)
    ensures |Label(Short, t)| <= |Label(Long, t)|
    ensures |Label(Short, t)| < |Label(Long, t)| <==> t.IsJointOrConcurrent()
  {
    match t
    case HR =>
    case HRes =>
    case HJRes =>
    case HCRes =>
    case S =>
    case SRes =>
    case SJRes =>
    case SCRes =>
  }

  /** The formatters only see the normalised code. */
  lemma FormatOfNormal(code: string, style: Style)
    ensures Format(Normalize(code), style) == Format(code, style)
  {
    NormalizeIdempotent(code);
  }

  /** The normalised form of every short label is the type code it stands for. */
  lemma NormalizeShortLabel(t: BillType)
    ensures Normalize(Label(Short, t)) == TypeCode(t)
  {
    NormalizeIsByChar(Label(Short, t), 0);
    assert Label(Short, t)[0..] == Label(Short, t);
    match t
    case HR => ShortLabelHR(Label(Short, t));
    case HRes => ShortLabelHRes(Label(Short, t));
    case HJRes => ShortLabelHJRes(Label(Short, t));
    case HCRes => ShortLabelHCRes(Label(Short, t));
    case S => ShortLabelS(Label(Short, t));
    case SRes => ShortLabelSRes(Label(Short, t));
    case SJRes => ShortLabelSJRes(Label(Short, t));
    case SCRes => ShortLabelSCRes(Label(Short, t));
  }

  /** A lower-case letter survives normalisation. */
  lemma NormalizeKeepsLower(s: string, c: char)
    requires IsLower(c) && c in s
    ensures c in Normalize(s)
  {
    var i :| 0 <= i < |s| && s[i] == c;
    assert ToLower(s)[i] == c;
  }

  /** The labels that differ are the long ones carrying an 'o', which no type code has. */
  lemma LabelLetters(t: BillType)
    ensures 'o' !in TypeCode(t)
    ensures t.IsJointOrConcurrent() ==> 'o' in Label(Long, t)
    ensures !t.IsJointOrConcurrent() ==> Label(Long, t) == Label(Short, t)
  {
  }

  // The eight label lemmas below are unrolled by hand: the verifier does not
  // evaluate the normaliser on a string literal within its resource budget,
  // so each label is stepped through index by index on its own.

  /** A short label, evaluated one character at a time from the end. */
  lemma ShortLabelHR(text: string)
    requires text == "H.R. "
    ensures NormalizeFrom(text, 0) == "hr"
  {
    assert NormalizeFrom(text, 4) == "";
    assert NormalizeFrom(text, 3) == "";
    assert NormalizeFrom(text, 2) == "r";
    assert NormalizeFrom(text, 1) == "r";
  }

  lemma ShortLabelHRes(text: string)
    requires text == "H. Res. "
    ensures NormalizeFrom(text, 0) == "hres"
  {
    assert NormalizeFrom(text, 7) == "";
    assert NormalizeFrom(text, 6) == "";
    assert NormalizeFrom(text, 5) == "s";
    assert NormalizeFrom(text, 4) == "es";
    assert NormalizeFrom(text, 3) == "res";
    assert NormalizeFrom(text, 2) == "res";
    assert NormalizeFrom(text, 1) == "res";
  }

  lemma ShortLabelHJRes(text: string)
    requires text == "H.J. Res. "
    ensures NormalizeFrom(text, 0) == "hjres"
  {
    assert NormalizeFrom(text, 9) == "";
    assert NormalizeFrom(text, 8) == "";
    assert NormalizeFrom(text, 7) == "s";
    assert NormalizeFrom(text, 6) == "es";
    assert NormalizeFrom(text, 5) == "res";
    assert NormalizeFrom(text, 4) == "res";
    assert NormalizeFrom(text, 3) == "res";
    assert NormalizeFrom(text, 2) == "jres";
    assert NormalizeFrom(text, 1) == "jres";
  }

  lemma ShortLabelHCRes(text: string)
    requires text == "H.C. Res. "
    ensures NormalizeFrom(text, 0) == "hcres"
  {
    assert NormalizeFrom(text, 9) == "";
    assert NormalizeFrom(text, 8) == "";
    assert NormalizeFrom(text, 7) == "s";
    assert NormalizeFrom(text, 6) == "es";
    assert NormalizeFrom(text, 5) == "res";
    assert NormalizeFrom(text, 4) == "res";
    assert NormalizeFrom(text, 3) == "res";
    assert NormalizeFrom(text, 2) == "cres";
    assert NormalizeFrom(text, 1) == "cres";
  }

  lemma ShortLabelS(text: string)
    requires text == "S. "
    ensures NormalizeFrom(text, 0) == "s"
  {
    assert NormalizeFrom(text, 2) == "";
    assert NormalizeFrom(text, 1) == "";
  }

  lemma ShortLabelSRes(text: string)
    requires text == "S. Res. "
    ensures NormalizeFrom(text, 0) == "sres"
  {
    assert NormalizeFrom(text, 7) == "";
    assert NormalizeFrom(text, 6) == "";
    assert NormalizeFrom(text, 5) == "s";
    assert NormalizeFrom(text, 4) == "es";
    assert NormalizeFrom(text, 3) == "res";
    assert NormalizeFrom(text, 2) == "res";
    assert NormalizeFrom(text, 1) == "res";
  }

  lemma ShortLabelSJRes(text: string)
    requires text == "S.J. Res. "
    ensures NormalizeFrom(text, 0) == "sjres"
  {
    assert NormalizeFrom(text, 9) == "";
    assert NormalizeFrom(text, 8) == "";
    assert NormalizeFrom(text, 7) == "s";
    assert NormalizeFrom(text, 6) == "es";
    assert NormalizeFrom(text, 5) == "res";
    assert NormalizeFrom(text, 4) == "res";
    assert NormalizeFrom(text, 3) == "res";
    assert NormalizeFrom(text, 2) == "jres";
    assert NormalizeFrom(text, 1) == "jres";
  }

  lemma ShortLabelSCRes(text: string)
    requires text == "S.C. Res. "
    ensures NormalizeFrom(text, 0) == "scres"
  {
    assert NormalizeFrom(text, 9) == "";
    assert NormalizeFrom(text, 8) == "";
    assert NormalizeFrom(text, 7) == "s";
    assert NormalizeFrom(text, 6) == "es";
    assert NormalizeFrom(text, 5) == "res";
    assert NormalizeFrom(text, 4) == "res";
    assert NormalizeFrom(text, 3) == "res";
    assert NormalizeFrom(text, 2) == "cres";
    assert NormalizeFrom(text, 1) == "cres";
  }


  /**
   * What `formatCodeShort` prints normalises to the same string as the code it was given,
   * so a short label typed back in names the same bill.
   */
  lemma FormatCodeShortRoundTrip(code: string)
    ensures Normalize(FormatCodeShort(code)) == Normalize(code)
  {
    match Recognize(code)
    case None => NormalizeIdempotent(code);
    case Some((t, number)) =>
      NormalizeConcat(Label(Short, t), number);
      NormalizeShortLabel(t);
      NormalizeFixes(number);
  }

  lemma FormatCodeShortIdempotent(code: string)
    ensures FormatCodeShort(FormatCodeShort(code)) == FormatCodeShort(code)
  {
    FormatCodeShortRoundTrip(code);
    FormatOfNormal(FormatCodeShort(code), Short);
    FormatOfNormal(code, Short);
  }

  /**
   * What `formatCode` prints normalises to the same string as the code it was given
   * except for joint and concurrent resolutions, whose long labels spell
   * out "Joint" and "Con.".
   */
  lemma FormatCodeRoundTrip(code: string)
    ensures Normalize(FormatCode(code)) == Normalize(code)
        <==> !(Recognize(code).Some? && Recognize(code).value.0.IsJointOrConcurrent())
  {
    match Recognize(code)
    case None => NormalizeIdempotent(code);
    case Some((t, number)) =>
      LabelLetters(t);
      if t.IsJointOrConcurrent() {
        var printed := Label(Long, t) + number;
        assert 'o' in printed;
        NormalizeKeepsLower(printed, 'o');
        assert Normalize(code) == TypeCode(t) + number;
        assert 'o' !in Normalize(code);
      } else {
        FormatCodeShortRoundTrip(code);
      }
  }

  // ---------------------------------------------------------------- bill ids

  /** `codeToBillId`: the normalised code, a dash and the session of `year`. */
  function CodeToBillId(code: string, year: int): string
    requires IsInt32(year)
  {
    Normalize(code) + "-" + CurrentSession(year)
  }

  /** The position of the last '-' in `s`, if there is one. */
  function LastDash(s: string): (r: Option<nat>)
    ensures r.Some? ==> r.value < |s| && s[r.value] == '-' && '-' !in s[r.value + 1..]
    ensures r.None? ==> '-' !in s
  {
    if s == [] then None
    else if s[|s| - 1] == '-' then Some(|s| - 1)
    else LastDash(s[..|s| - 1])
  }

  lemma {:induction false} LastDashBefore(prefix: string, tail: string)
    requires '-' !in tail
    ensures LastDash(prefix + "-" + tail) == Some(|prefix|)
  {
    var s := prefix + "-" + tail;
    if tail != [] {
      assert s[..|s| - 1] == prefix + "-" + tail[..|tail| - 1];
      LastDashBefore(prefix, tail[..|tail| - 1]);
    }
  }

  /** Reads a bill id back into its code and its session number. */
  function SplitBillId(id: string): Option<(string, nat)> {
    match LastDash(id)
    case None => None
    case Some(i) =>
      var digits := id[i + 1..];
      if |digits| > 0 && AllDigits(digits) then Some((id[..i], ParseNat(digits))) else None
  }

  /** A bill id carries the normalised code and the session, and both can be read back. */
  lemma BillIdRoundTrip(code: string, year: int)
    requires IsInt32(year) && Session(year) >= 0
    ensures SplitBillId(CodeToBillId(code, year)) == Some((Normalize(code), Session(year)))
  {
    var prefix := Normalize(code);
    var tail := NatToString(Session(year));
    var id := CodeToBillId(code, year);
    assert id == prefix + "-" + tail;
    NatToStringHasNo(Session(year), '-');
    LastDashBefore(prefix, tail);
    assert id[..|prefix|] == prefix && id[|prefix| + 1..] == tail;
    ParseNatToString(Session(year));
  }

  /** Two codes give the same bill id in a year exactly when they normalise alike. */
  lemma BillIdIdentifiesCode(code1: string, code2: string, year: int)
    requires IsInt32(year)
    ensures CodeToBillId(code1, year) == CodeToBillId(code2, year) <==> Normalize(code1) == Normalize(code2)
  {
    var n1, n2, dash, session := Normalize(code1), Normalize(code2), "-", CurrentSession(year);
    if n1 + dash + session == n2 + dash + session {
      CancelSuffix(n1 + dash, n2 + dash, session);
      CancelSuffix(n1, n2, dash);
    }
  }

  /** A short label typed back in yields the bill id of the code it was printed from. */
  lemma BillIdOfShortFormat(code: string, year: int)
    requires IsInt32(year)
    ensures CodeToBillId(FormatCodeShort(code), year) == CodeToBillId(code, year)
  {
    FormatCodeShortRoundTrip(code);
  }
}
