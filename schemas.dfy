/** The string validators shared by the request schemas: trimming, the `column.DIRECTION`
    sort directive, the CPF and phone-number masks, the `"true"`/`"false"` and `M`/`F`
    enumerations, and the optional variants that let null and undefined through. */
module Schemas {
  import opened Common
  import opened Text

  /** The outcome of parsing one value: the parsed value, or a rejection carrying the
      schema's own message (`None` where the library's default message is used). */
  datatype Validation<+T> = Valid(value: T) | Invalid(message: Option<string>)

  // ---------------------------------------------------------------------------
  // stringSchema: trim

  /** The characters `String.prototype.trim` removes: the ECMAScript white space and line
      terminators. */
  predicate IsJsWhitespace(c: char) {
    || c == '\t' || c == '\n' || c == '\U{0B}' || c == '\U{0C}' || c == '\r' || c == ' '
    || c == '\U{A0}' || c == '\U{1680}' || ('\U{2000}' <= c <= '\U{200A}')
    || c == '\U{2028}' || c == '\U{2029}' || c == '\U{202F}' || c == '\U{205F}'
    || c == '\U{3000}' || c == '\U{FEFF}'
  }

  predicate AllWhitespace(s: string) {
    forall k :: 0 <= k < |s| ==> IsJsWhitespace(s[k])
  }

  /** A string with nothing to trim: empty, or neither end is white space. */
  predicate Trimmed(s: string) {
    s == "" || (!IsJsWhitespace(s[0]) && !IsJsWhitespace(s[|s| - 1]))
  }

  /** The length of the white-space run at the start of `s`. */
  function LeadingSpace(s: string): (n: nat)
    ensures n <= |s| && AllWhitespace(s[..n])
    ensures n == |s| || !IsJsWhitespace(s[n])
  {
    if |s| == 0 || !IsJsWhitespace(s[0]) then 0 else 1 + LeadingSpace(s[1..])
  }

  /** The length of the white-space run at the end of `s`. */
  function TrailingSpace(s: string): (n: nat)
    ensures n <= |s| && AllWhitespace(s[|s| - n..])
    ensures n == |s| || !IsJsWhitespace(s[|s| - n - 1])
  {
    if |s| == 0 || !IsJsWhitespace(s[|s| - 1]) then 0 else 1 + TrailingSpace(s[..|s| - 1])
  }

  /** `stringSchema`, i.e. `z.string().trim()`: white space removed from both ends. The
      result is a slice of the input with only white space cut away, and nothing is left
      to trim. */
  function Trim(s: string): (r: string)
    ensures Trimmed(r)
    ensures exists i, j :: 0 <= i <= j <= |s| && r == s[i..j] && AllWhitespace(s[..i]) && AllWhitespace(s[j..])
  {
    var i := LeadingSpace(s);
    var rest := s[i..];
    var j := i + |rest| - TrailingSpace(rest);
    assert rest[..|rest| - TrailingSpace(rest)] == s[i..j];
    assert s[j..] == rest[|rest| - TrailingSpace(rest)..];
    s[i..j]
  }

  /** Trimming is determined by what it keeps: any white-space padding around a trimmed
      string is removed, and exactly that string remains. */
  lemma {:induction false} TrimPadding(pre: string, mid: string, post: string)
    requires AllWhitespace(pre) && AllWhitespace(post) && Trimmed(mid)
    ensures Trim(pre + mid + post) == mid
  {
    var s := pre + mid + post;
    assert s == pre + (mid + post);
    if mid == "" {
      assert s == pre + post;
      LeadingOfPadded(pre, post);
      LeadingOfPadded(post, "");
      assert post + "" == post;
      assert LeadingSpace(s) == |s|;
      assert s[|s|..] == "";
    } else {
      LeadingOfPadded(pre, mid + post);
      assert (mid + post)[0] == mid[0];
      assert LeadingSpace(s) == |pre|;
      var rest := s[|pre|..];
      assert rest == mid + post;
      TrailingOfPadded(mid, post);
      assert rest[..|rest| - |post|] == mid;
      assert s[|pre|..|pre| + |mid|] == mid;
    }
  }

  lemma {:induction false} LeadingOfPadded(pre: string, rest: string)
    requires AllWhitespace(pre)
    requires rest == "" || !IsJsWhitespace(rest[0]) || AllWhitespace(rest)
    ensures LeadingSpace(pre + rest) == |pre| + LeadingSpace(rest)
  {
    if |pre| > 0 {
      assert (pre + rest)[1..] == pre[1..] + rest;
      LeadingOfPadded(pre[1..], rest);
    } else {
      assert pre + rest == rest;
    }
  }

  lemma {:induction false} TrailingOfPadded(mid: string, post: string)
    requires AllWhitespace(post) && Trimmed(mid)
    ensures TrailingSpace(mid + post) == |post|
  {
    if |post| > 0 {
      assert (mid + post)[..|mid + post| - 1] == mid + post[..|post| - 1];
      TrailingOfPadded(mid, post[..|post| - 1]);
    } else {
      assert mid + post == mid;
    }
  }

  /** Trimming twice is trimming once. */
  lemma TrimIdempotent(s: string)
    ensures Trim(Trim(s)) == Trim(s)
  {
    var t := Trim(s);
    TrimPadding("", t, "");
    assert "" + t + "" == t;
  }

  // ---------------------------------------------------------------------------
  // sortSchema: /^.+\.(ASC|DESC|asc|desc)$/ on the trimmed string

  const InvalidFormat := "Formato inválido"

  /** The directions the pattern allows, spelled exactly: all upper or all lower case. */
  predicate IsDirection(d: string) {
    d == "ASC" || d == "DESC" || d == "asc" || d == "desc"
  }

  /** The characters a regular-expression `.` does not match. */
  predicate IsLineTerminator(c: char) {
    c == '\n' || c == '\r' || c == '\U{2028}' || c == '\U{2029}'
  }

  /** `s` matches `^.+\.D$` for the direction `D`: a non-empty run of characters other
      than line terminators, a dot, then `D` at the very end. */
  predicate SortMatchesWith(s: string, d: string) {
    && |s| >= |d| + 2
    && s[|s| - |d| - 1..] == "." + d
    && forall k :: 0 <= k < |s| - |d| - 1 ==> !IsLineTerminator(s[k])
  }

  /** The meaning of the sort pattern. */
  predicate SortMatches(s: string) {
    SortMatchesWith(s, "ASC") || SortMatchesWith(s, "DESC") || SortMatchesWith(s, "asc") || SortMatchesWith(s, "desc")
  }

  /** The position of the last `.` in `s`. */
  function LastDot(s: string): (r: Option<nat>)
    ensures r.Some? ==> r.value < |s| && s[r.value] == '.' && '.' !in s[r.value + 1..]
    ensures r.None? ==> '.' !in s
  {
    if |s| == 0 then None
    else if s[|s| - 1] == '.' then Some(|s| - 1)
    else
      var r := LastDot(s[..|s| - 1]);
      assert s == s[..|s| - 1] + [s[|s| - 1]];
      if r.Some? then
        assert s[r.value + 1..] == s[..|s| - 1][r.value + 1..] + [s[|s| - 1]];
        r
      else r
  }

  /** The pattern test done by hand: what follows the last dot is a direction, and what
      precedes it is non-empty and free of line terminators. */
  predicate SortDirective(s: string) {
    match LastDot(s)
    case None => false
    case Some(i) =>
      && i >= 1
      && IsDirection(s[i + 1..])
      && forall k :: 0 <= k < i ==> !IsLineTerminator(s[k])
  }

  /** A string matching `^.+\.D$` is a directive: `D` holds no dot, so the dot before it
      is the last one. */
  lemma PatternIsDirective(s: string, d: string)
    requires IsDirection(d) && '.' !in d && SortMatchesWith(s, d)
    ensures SortDirective(s)
  {
    var i := |s| - |d| - 1;
    assert s[i] == ("." + d)[0];
    assert s[i + 1..] == ("." + d)[1..] == d;
  }

  /** Conversely a directive matches the pattern for the direction after its last dot. */
  lemma DirectiveIsPattern(s: string)
    requires SortDirective(s)
    ensures SortMatchesWith(s, s[LastDot(s).value + 1..])
  {
    var i := LastDot(s).value;
    var d := s[i + 1..];
    assert s[|s| - |d| - 1..] == [s[i]] + d;
  }

  /** The hand-written test and the pattern agree on every string. */
  lemma SortDirectiveIff(s: string)
    ensures SortDirective(s) <==> SortMatches(s)
  {
    if SortDirective(s) {
      DirectiveIsPattern(s);
    }
    if SortMatchesWith(s, "ASC") {
      assert '.' !in "ASC";
      PatternIsDirective(s, "ASC");
    } else if SortMatchesWith(s, "DESC") {
      assert '.' !in "DESC";
      PatternIsDirective(s, "DESC");
    } else if SortMatchesWith(s, "asc") {
      assert '.' !in "asc";
      PatternIsDirective(s, "asc");
    } else if SortMatchesWith(s, "desc") {
      assert '.' !in "desc";
      PatternIsDirective(s, "desc");
    }
  }

  /** `sortSchema`: the trimmed input, when it is a `column.DIRECTION` directive. */
  function SortSchema(input: string): (r: Validation<string>)
    ensures r.Valid? <==> SortMatches(Trim(input))
    ensures r.Valid? ==> r.value == Trim(input)
    ensures r.Invalid? ==> r.message == Some(InvalidFormat)
  {
    var s := Trim(input);
    SortDirectiveIff(s);
    if SortDirective(s) then Valid(s) else Invalid(Some(InvalidFormat))
  }

  /** A string with nothing to trim is its own trim. */
  lemma TrimOfTrimmed(s: string)
    requires Trimmed(s)
    ensures Trim(s) == s
  {
    TrimPadding("", s, "");
    assert "" + s + "" == s;
  }

  /** A column name that starts with a visible character and holds no line break, a dot,
      and one of the four directions is accepted as it is. */
  lemma SortAccepts(column: string, d: string)
    requires column != "" && !IsJsWhitespace(column[0])
    requires forall k :: 0 <= k < |column| ==> !IsLineTerminator(column[k])
    requires IsDirection(d)
    ensures SortSchema(column + "." + d) == Valid(column + "." + d)
  {
    var s := column + "." + d;
    assert s[0] == column[0] && s[|s| - 1] == d[|d| - 1];
    TrimOfTrimmed(s);
    assert s[|s| - |d| - 1..] == "." + d;
    assert forall k :: 0 <= k < |column| ==> s[k] == column[k];
    assert SortMatchesWith(s, d);
  }

  /** Trimming a string that ends in a visible character keeps its end. */
  lemma TrimKeepsEnd(s: string, n: nat)
    requires |s| >= n && |s| > 0 && !IsJsWhitespace(s[|s| - 1])
    ensures |Trim(s)| >= n ==> Trim(s)[|Trim(s)| - n..] == s[|s| - n..]
  {
    var i := LeadingSpace(s);
    assert s[..|s|][|s| - 1] == s[|s| - 1];
    assert i < |s|;
    var rest := s[i..];
    assert rest[|rest| - 1] == s[|s| - 1];
    assert TrailingSpace(rest) == 0;
    assert Trim(s) == rest;
  }

  /** A string whose last four characters are `.Asc` is no sort directive. */
  lemma NotDirectionAsc(t: string)
    requires |t| >= 4 && t[|t| - 4..] == ".Asc"
    ensures !SortMatches(t)
  {
    assert t[|t| - 3] == 'A' && t[|t| - 1] == 'c';
  }

  /** A string whose last five characters are `.Desc` is no sort directive. */
  lemma NotDirectionDesc(t: string)
    requires |t| >= 5 && t[|t| - 5..] == ".Desc"
    ensures !SortMatches(t)
  {
    assert t[|t| - 4] == 'D' && t[|t| - 3] == 'e' && t[|t| - 5] == '.';
  }

  /** Mixed-case directions are refused, whatever precedes them. */
  lemma SortRejectsMixedCase(column: string)
    ensures SortSchema(column + ".Asc").Invalid?
    ensures SortSchema(column + ".Desc").Invalid?
  {
    MixedAscRejected(column);
    MixedDescRejected(column);
  }

  lemma MixedAscRejected(column: string)
    ensures SortSchema(column + ".Asc").Invalid?
  {
    var s := column + ".Asc";
    assert s[|s| - 4..] == ".Asc";
    TrimKeepsEnd(s, 4);
    if |Trim(s)| >= 4 {
      NotDirectionAsc(Trim(s));
    }
  }

  lemma MixedDescRejected(column: string)
    ensures SortSchema(column + ".Desc").Invalid?
  {
    var s := column + ".Desc";
    assert s[|s| - 5..] == ".Desc";
    TrimKeepsEnd(s, 5);
    if |Trim(s)| >= 5 {
      NotDirectionDesc(Trim(s));
    }
  }

  // ---------------------------------------------------------------------------
  // cpfStringSchema and phoneNumberStringSchema: fixed digit masks

  /** A mask: `#` stands for one decimal digit, any other character for itself. */
  const CpfMask := "###" + "." + "###" + "." + "###" + "-" + "##"            // ###.###.###-##
  const PhoneMask := "(##" + ") " + "###" + "##-" + "####"                  // (##) #####-####

  /** `s` matches the anchored pattern the mask describes (`\d` is `[0-9]`). */
  predicate MatchesMask(s: string, mask: string) {
    |s| == |mask| && forall k :: 0 <= k < |s| ==> (if mask[k] == '#' then IsDigit(s[k]) else s[k] == mask[k])
  }

  /** The number of digit slots in a mask. */
  function Slots(mask: string): nat {
    if |mask| == 0 then 0 else (if mask[0] == '#' then 1 else 0) + Slots(mask[1..])
  }

  /** A match of a mask, less its first character, matches the rest of the mask. */
  lemma MatchesMaskTail(s: string, mask: string)
    requires MatchesMask(s, mask) && |mask| > 0
    ensures MatchesMask(s[1..], mask[1..])
  {
    forall k | 0 <= k < |s| - 1
      ensures if mask[1..][k] == '#' then IsDigit(s[1..][k]) else s[1..][k] == mask[1..][k]
    {
      assert s[1..][k] == s[k + 1] && mask[1..][k] == mask[k + 1];
    }
  }

  /** The mask filled in with `digits`, one per slot, in order. */
  function FillMask(mask: string, digits: seq<nat>): (s: string)
    requires |digits| == Slots(mask)
    requires forall k :: 0 <= k < |digits| ==> digits[k] < 10
    ensures MatchesMask(s, mask)
  {
    if |mask| == 0 then ""
    else if mask[0] == '#' then [DigitChar(digits[0])] + FillMask(mask[1..], digits[1..])
    else [mask[0]] + FillMask(mask[1..], digits)
  }

  /** The digits of `s` in the mask's slots. */
  function SlotDigits(s: string, mask: string): (digits: seq<nat>)
    requires MatchesMask(s, mask)
    ensures |digits| == Slots(mask)
  {
    if |mask| == 0 then []
    else
      MatchesMaskTail(s, mask);
      if mask[0] == '#' then [DigitValue(s[0])] + SlotDigits(s[1..], mask[1..])
      else SlotDigits(s[1..], mask[1..])
  }

  /** Reading the digits back from a filled mask gives the digits that went in. */
  lemma {:induction false} SlotDigitsOfFill(mask: string, digits: seq<nat>)
    requires |digits| == Slots(mask)
    requires forall k :: 0 <= k < |digits| ==> digits[k] < 10
    ensures SlotDigits(FillMask(mask, digits), mask) == digits
  {
    if |mask| > 0 {
      var s := FillMask(mask, digits);
      if mask[0] == '#' {
        DigitRoundTrip(digits[0]);
        SlotDigitsOfFill(mask[1..], digits[1..]);
        assert s[1..] == FillMask(mask[1..], digits[1..]);
      } else {
        SlotDigitsOfFill(mask[1..], digits);
        assert s[1..] == FillMask(mask[1..], digits);
      }
    }
  }

  /** Every match of a mask is the mask filled with its own digits. */
  lemma {:induction false} FillSlotDigits(s: string, mask: string)
    requires MatchesMask(s, mask)
    ensures var ds := SlotDigits(s, mask);
            (forall k :: 0 <= k < |ds| ==> ds[k] < 10) && FillMask(mask, ds) == s
  {
    if |mask| > 0 {
      assert MatchesMask(s[1..], mask[1..]);
      FillSlotDigits(s[1..], mask[1..]);
      if mask[0] == '#' {
        assert DigitChar(DigitValue(s[0])) == s[0];
      }
    }
  }

  /** A schema that trims and then requires the whole string to match a mask. */
  function MaskSchema(input: string, mask: string): (r: Validation<string>)
    ensures r.Valid? <==> MatchesMask(Trim(input), mask)
    ensures r.Valid? ==> r.value == Trim(input) && |r.value| == |mask|
    ensures r.Invalid? ==> r.message.None?
  {
    var s := Trim(input);
    if MatchesMask(s, mask) then Valid(s) else Invalid(None)
  }

  /** `cpfStringSchema`: `ddd.ddd.ddd-dd` after trimming. */
  function CpfSchema(input: string): (r: Validation<string>)
    ensures r.Valid? <==> MatchesMask(Trim(input), CpfMask)
    ensures r.Valid? ==> r.value == Trim(input) && |r.value| == 14
  {
    MaskSchema(input, CpfMask)
  }

  /** `phoneNumberStringSchema`: `(dd) ddddd-dddd` after trimming. */
  function PhoneSchema(input: string): (r: Validation<string>)
    ensures r.Valid? <==> MatchesMask(Trim(input), PhoneMask)
    ensures r.Valid? ==> r.value == Trim(input) && |r.value| == 15
  {
    MaskSchema(input, PhoneMask)
  }

  /** A mask that begins and ends with a digit slot or a visible character: any filling
      of it, padded with white space, is accepted as the filling itself and gives back its
      digits. */
  lemma MaskRoundTrip(mask: string, digits: seq<nat>, pre: string, post: string)
    requires |mask| > 0
    requires mask[0] == '#' || !IsJsWhitespace(mask[0])
    requires mask[|mask| - 1] == '#' || !IsJsWhitespace(mask[|mask| - 1])
    requires |digits| == Slots(mask) && forall k :: 0 <= k < |digits| ==> digits[k] < 10
    requires AllWhitespace(pre) && AllWhitespace(post)
    ensures var s := FillMask(mask, digits);
            MaskSchema(pre + s + post, mask) == Valid(s) && SlotDigits(s, mask) == digits
  {
    var s := FillMask(mask, digits);
    assert Trimmed(s) by {
      assert mask[0] == '#' ==> IsDigit(s[0]);
      assert mask[|mask| - 1] == '#' ==> IsDigit(s[|s| - 1]);
    }
    TrimPadding(pre, s, post);
    SlotDigitsOfFill(mask, digits);
  }

  /** Slots add up over concatenation. */
  lemma {:induction false} SlotsAppend(a: string, b: string)
    ensures Slots(a + b) == Slots(a) + Slots(b)
  {
    if |a| > 0 {
      assert (a + b)[1..] == a[1..] + b;
      SlotsAppend(a[1..], b);
    } else {
      assert a + b == b;
    }
  }

  lemma MaskPieceSlots()
    ensures Slots("###") == 3 && Slots("##") == 2 && Slots(".") == 0 && Slots("-") == 0
    ensures Slots("(##") == 2 && Slots(") ") == 0 && Slots("##-") == 2 && Slots("####") == 4
  {
    assert "###"[1..] == "##"; assert "##"[1..] == "#"; assert "#"[1..] == "";
    assert "(##"[1..] == "##"; assert ") "[1..] == " "; assert " "[1..] == "";
    assert "##-"[1..] == "#-"; assert "#-"[1..] == "-"; assert "-"[1..] == "";
    assert "####"[1..] == "###"; assert "."[1..] == "";
  }

  /** The CPF mask has eleven digit slots and starts and ends with one. */
  lemma CpfMaskSlots()
    ensures |CpfMask| == 14 && CpfMask[0] == '#' && CpfMask[13] == '#' && Slots(CpfMask) == 11
  {
    MaskPieceSlots();
    SlotsAppend("###" + "." + "###" + "." + "###" + "-", "##");
    SlotsAppend("###" + "." + "###" + "." + "###", "-");
    SlotsAppend("###" + "." + "###" + ".", "###");
    SlotsAppend("###" + "." + "###", ".");
    SlotsAppend("###" + ".", "###");
    SlotsAppend("###", ".");
  }

  /** The phone mask has eleven digit slots, starts with `(` and ends with a slot. */
  lemma PhoneMaskSlots()
    ensures |PhoneMask| == 15 && PhoneMask[0] == '(' && PhoneMask[14] == '#' && Slots(PhoneMask) == 11
  {
    MaskPieceSlots();
    SlotsAppend("(##" + ") " + "###" + "##-", "####");
    SlotsAppend("(##" + ") " + "###", "##-");
    SlotsAppend("(##" + ") ", "###");
    SlotsAppend("(##", ") ");
  }

  /** The eleven digits of a CPF (`CpfMaskSlots`) written in its layout are accepted,
      padded or not, and give back the same digits. */
  lemma CpfRoundTrip(digits: seq<nat>, pre: string, post: string)
    requires |digits| == Slots(CpfMask) && forall k :: 0 <= k < |digits| ==> digits[k] < 10
    requires AllWhitespace(pre) && AllWhitespace(post)
    ensures var s := FillMask(CpfMask, digits);
            CpfSchema(pre + s + post) == Valid(s) && SlotDigits(s, CpfMask) == digits
  {
    CpfMaskSlots();
    MaskRoundTrip(CpfMask, digits, pre, post);
  }

  /** The eleven digits of a phone number (`PhoneMaskSlots`) in the `(dd) ddddd-dddd`
      layout are accepted, padded or not, and give back their digits. */
  lemma PhoneRoundTrip(digits: seq<nat>, pre: string, post: string)
    requires |digits| == Slots(PhoneMask) && forall k :: 0 <= k < |digits| ==> digits[k] < 10
    requires AllWhitespace(pre) && AllWhitespace(post)
    ensures var s := FillMask(PhoneMask, digits);
            PhoneSchema(pre + s + post) == Valid(s) && SlotDigits(s, PhoneMask) == digits
  {
    PhoneMaskSlots();
    MaskRoundTrip(PhoneMask, digits, pre, post);
  }

  // ---------------------------------------------------------------------------
  // enumerations: no trimming

  /** `booleanStringSchema`: exactly `"true"` or `"false"`, read as that boolean. */
  function BooleanStringSchema(input: string): (r: Validation<bool>)
    ensures r.Valid? <==> input in {"true", "false"}
    ensures r.Valid? ==> (r.value <==> input == "true")
    ensures r.Invalid? ==> r.message.None?
  {
    if input == "true" then Valid(true)
    else if input == "false" then Valid(false)
    else Invalid(None)
  }

  datatype Gender = M | F

  function GenderName(g: Gender): string {
    match g
    case M => "M"
    case F => "F"
  }

  /** `genderStringSchema`: exactly `M` or `F`. */
  function GenderSchema(input: string): (r: Validation<Gender>)
    ensures r.Valid? <==> input in {"M", "F"}
    ensures r.Valid? ==> GenderName(r.value) == input
    ensures r.Invalid? ==> r.message.None?
  {
    if input == "M" then Valid(M)
    else if input == "F" then Valid(F)
    else Invalid(None)
  }

  /** Printing a boolean or a gender and parsing it back gives the same value. */
  lemma EnumRoundTrips(b: bool, g: Gender)
    ensures BooleanStringSchema(if b then "true" else "false") == Valid(b)
    ensures GenderSchema(GenderName(g)) == Valid(g)
  {
  }

  // ---------------------------------------------------------------------------
  // optional variants

  /** `createNullableTransform(schema)`: null and undefined are accepted as undefined
      without consulting `schema`; any other value goes through `schema`. */
  function Optional<T>(input: Maybe<string>, schema: string -> Validation<T>): (r: Validation<Option<T>>)
    ensures input.IsNullish() ==> r == Valid(None)
    ensures input.Present? ==> (r.Valid? <==> schema(input.value).Valid?)
    ensures input.Present? && r.Valid? ==> r.value == Some(schema(input.value).value)
    ensures input.Present? && r.Invalid? ==> r.message == schema(input.value).message
  {
    match input
    case Present(s) =>
      (match schema(s)
       case Valid(v) => Valid(Some(v))
       case Invalid(m) => Invalid(m))
    case _ => Valid(None)
  }

  /** `toLocaleLowerCase` on the ASCII letters. */
  function AsciiLower(c: char): (r: char)
    ensures 'A' <= c <= 'Z' ==> r as int == c as int + 32
    ensures !('A' <= c <= 'Z') ==> r == c
  {
    if 'A' <= c <= 'Z' then (c as int + 32) as char else c
  }

  function LowerCase(s: string): (r: string)
    ensures |r| == |s| && forall k :: 0 <= k < |s| ==> r[k] == AsciiLower(s[k])
  {
    if |s| == 0 then "" else [AsciiLower(s[0])] + LowerCase(s[1..])
  }

  /** `optionalStringSchemaToLowerCase`: the optional trimmed string, lower-cased. */
  function OptionalLowerCase(input: Maybe<string>): (r: Validation<Option<string>>)
    ensures r.Valid?
    ensures input.IsNullish() <==> r.value.None?
    ensures input.Present? ==> r.value == Some(LowerCase(Trim(input.value)))
  {
    match Optional(input, (s: string) => Valid(Trim(s)))
    case Valid(v) => Valid(if v.Some? then Some(LowerCase(v.value)) else None)
    case Invalid(m) => Invalid(m)
  }

  /** A lower-cased string has no upper-case ASCII letter, and lower-casing it again
      changes nothing. */
  lemma LowerCaseIdempotent(s: string)
    ensures forall k :: 0 <= k < |s| ==> !('A' <= LowerCase(s)[k] <= 'Z')
    ensures LowerCase(LowerCase(s)) == LowerCase(s)
  {
  }
}
