/** The contact validators and text cleaners of update_supabase.py. A cell is
    an optional string: None stands for a pandas missing value (NaN). */
module ContactClean {
  import opened Common

  const Unknown: string := "N/A"
  const IndustryLimit: nat := 300

  // ---------------------------------------------------------------------
  // Phone numbers: ^(\+91)?[6-9][0-9]{9}$

  /** Ten digits, the first one 6 to 9: an Indian mobile number. */
  predicate IsMobile(s: string) {
    |s| == 10 && '6' <= s[0] <= '9' && AllDigits(s)
  }

  /** What the pattern matches before its `$`: an optional "+91" and a mobile number. */
  predicate PhoneBody(s: string) {
    IsMobile(s) || (|s| == 13 && s[..3] == "+91" && IsMobile(s[3..]))
  }

  /** Python's `$` matches at the very end and also just before a final "\n". */
  predicate EndAnchored(s: string, body: string -> bool) {
    body(s) || (|s| > 0 && s[|s| - 1] == '\n' && body(s[..|s| - 1]))
  }

  /** `is_valid_phone` on the string the row loop passes in. */
  predicate IsValidPhone(phone: string) {
    phone != Unknown && phone != "" && EndAnchored(phone, PhoneBody)
  }

  /** The explicit "N/A" and empty-string guards only reject what the pattern
      rejects anyway, and accepted numbers have 10 or 13 characters, one more
      with the trailing newline that `$` tolerates. */
  lemma PhoneShape(phone: string)
    ensures !PhoneBody(Unknown) && !PhoneBody("")
    ensures IsValidPhone(phone) <==> EndAnchored(phone, PhoneBody)
    ensures IsValidPhone(phone) ==> |phone| in {10, 11, 13, 14}
    ensures IsValidPhone(phone) && |phone| in {10, 13} ==> PhoneBody(phone)
  {
    assert !IsDigit(Unknown[1]);
    if IsValidPhone(phone) && !PhoneBody(phone) {
      var body := phone[..|phone| - 1];
      assert PhoneBody(body);
      assert |phone| == |body| + 1;
    }
  }

  // ---------------------------------------------------------------------
  // E-mail addresses: ^[a-zA-Z0-9._%+-]+@[a-zA-Z0-9.-]+\.[a-zA-Z]{2,}$

  predicate IsLocalChar(c: char) {
    IsLetter(c) || IsDigit(c) || c == '.' || c == '_' || c == '%' || c == '+' || c == '-'
  }

  predicate IsDomainChar(c: char) {
    IsLetter(c) || IsDigit(c) || c == '.' || c == '-'
  }

  /** `s` splits as a non-empty local part, "@" at index `at`, a non-empty
      domain, "." at index `dot`, and a top-level domain of at least two
      letters. */
  predicate EmailSplit(s: string, at: int, dot: int) {
    && 0 < at && at + 1 < dot < |s| - 2
    && (forall i :: 0 <= i < at ==> IsLocalChar(s[i]))
    && s[at] == '@'
    && (forall i :: at < i < dot ==> IsDomainChar(s[i]))
    && s[dot] == '.'
    && (forall i :: dot < i < |s| ==> IsLetter(s[i]))
  }

  predicate EmailBody(s: string) {
    exists at, dot :: 0 <= at < dot < |s| && EmailSplit(s, at, dot)
  }

  /** `is_valid_email` on the string the row loop passes in. */
  predicate IsValidEmail(email: string) {
    email != Unknown && email != "" && EndAnchored(email, EmailBody)
  }

  /** A matching address has exactly one way to match: the "@" is its only
      "@" and the "." before the top-level domain is its last ".". */
  lemma EmailSplitUnique(s: string, at1: int, dot1: int, at2: int, dot2: int)
    requires EmailSplit(s, at1, dot1) && EmailSplit(s, at2, dot2)
    ensures at1 == at2 && dot1 == dot2
  {
    assert s[at1] == '@' && s[at2] == '@' && !IsLocalChar('@');
    assert s[dot1] == '.' && s[dot2] == '.' && !IsLetter('.');
  }

  /** The domain between "@" and the last "." may not be empty, while a
      complete address is accepted. */
  lemma EmptyDomainRejected()
    ensures !IsValidEmail("a@.co")
    ensures IsValidEmail("a@b.co")
  {
    assert EmailSplit("a@b.co", 1, 3);
  }

  /** The explicit guards are again redundant: neither "N/A" nor "" can match,
      and a valid address holds one "@" and ends in a letter or a "\n". */
  lemma EmailShape(email: string)
    ensures !EmailBody(Unknown) && !EmailBody("")
    ensures IsValidEmail(email) <==> EndAnchored(email, EmailBody)
    ensures IsValidEmail(email) ==> IsLetter(email[|email| - 1]) || email[|email| - 1] == '\n'
  {
    assert |Unknown| == 3;
    if IsValidEmail(email) && !EmailBody(email) {
      var body := email[..|email| - 1];
      var at, dot :| 0 <= at < dot < |body| && EmailSplit(body, at, dot);
    } else if IsValidEmail(email) {
      var at, dot :| 0 <= at < dot < |email| && EmailSplit(email, at, dot);
      assert IsLetter(email[|email| - 1]);
    }
  }

  // ---------------------------------------------------------------------
  // Addresses

  /** The two character classes the address cleaner collapses. */
  datatype CharClass = LineBreak | Whitespace

  predicate InClass(c: char, cls: CharClass) {
    match cls
    case LineBreak => c == '\n' || c == '\r'
    case Whitespace => IsSpace(c)
  }

  /** `re.sub(r'[\n\r]+', ' ', s)` or `re.sub(r'\s+', ' ', s)`: every maximal
      run of class characters becomes one space. `inRun` says that a run is
      already open, so its replacement has been emitted. */
  function SubRuns(s: string, cls: CharClass, inRun: bool): (r: string)
    ensures |r| <= |s|
    ensures forall i :: 0 <= i < |r| && InClass(r[i], cls) ==> r[i] == ' '
    ensures forall i :: 0 <= i < |r| - 1 && InClass(r[i], cls) ==> !InClass(r[i + 1], cls)
    ensures inRun && |r| > 0 ==> !InClass(r[0], cls)
    ensures |s| > 0 && !InClass(s[0], cls) ==> |r| > 0 && r[0] == s[0]
    ensures |s| > 0 && !InClass(s[|s| - 1], cls) ==> |r| > 0 && r[|r| - 1] == s[|s| - 1]
    ensures (forall i :: 0 <= i < |s| ==> IsSpace(s[i])) && IsSpace(' ') ==> forall i :: 0 <= i < |r| ==> IsSpace(r[i])
    decreases |s|
  {
    if s == [] then []
    else
      var t := s[1..];
      assert forall i :: 0 <= i < |t| ==> t[i] == s[i + 1];
      if InClass(s[0], cls) then
        if inRun then SubRuns(t, cls, true) else [' '] + SubRuns(t, cls, true)
      else [s[0]] + SubRuns(t, cls, false)
  }

  /** The text with every class character and every space deleted: what the
      substitution must carry over untouched, in order. */
  function Kept(s: string, cls: CharClass): (r: string)
    ensures |r| <= |s|
    ensures forall i :: 0 <= i < |r| ==> !InClass(r[i], cls) && r[i] != ' '
    decreases |s|
  {
    if s == [] then []
    else (if InClass(s[0], cls) || s[0] == ' ' then [] else [s[0]]) + Kept(s[1..], cls)
  }

  /** Whether a class run is open once `s` has been read, starting from `inRun`. */
  function RunOpenAfter(s: string, cls: CharClass, inRun: bool): bool {
    if s == [] then inRun else InClass(s[|s| - 1], cls)
  }

  /** The text the substitution emits for one character. */
  function Emitted(c: char, cls: CharClass, inRun: bool): string {
    if !InClass(c, cls) then [c] else if inRun then [] else " "
  }

  /** The substitution on a text with a known first character. */
  lemma SubRunsCons(c: char, t: string, cls: CharClass, inRun: bool)
    ensures SubRuns([c] + t, cls, inRun) == Emitted(c, cls, inRun) + SubRuns(t, cls, InClass(c, cls))
  {
    assert ([c] + t)[0] == c && ([c] + t)[1..] == t;
  }

  /** What the substitution does to one character: a class character opens
      a run and is replaced by one space, or by nothing when a run is
      already open; any other character is kept. */
  lemma SubRunsCharacter(c: char, cls: CharClass, inRun: bool)
    ensures SubRuns([c], cls, inRun) == if !InClass(c, cls) then [c] else if inRun then [] else " "
  {
    SubRunsCons(c, [], cls, inRun);
    assert [c] + [] == [c];
  }

  /** The substitution reads the text left to right, carrying only whether a
      run is open. With `SubRunsCharacter` this fixes the result for every text. */
  lemma {:induction false} SubRunsAppend(a: string, b: string, cls: CharClass, inRun: bool)
    ensures SubRuns(a + b, cls, inRun) == SubRuns(a, cls, inRun) + SubRuns(b, cls, RunOpenAfter(a, cls, inRun))
    decreases |a|
  {
    if a == [] {
      assert a + b == b;
    } else {
      var c, t := a[0], a[1..];
      var open := InClass(c, cls);
      assert a == [c] + t;
      assert a + b == [c] + (t + b);
      SubRunsCons(c, t, cls, inRun);
      SubRunsCons(c, t + b, cls, inRun);
      SubRunsAppend(t, b, cls, open);
      assert RunOpenAfter(t, cls, open) == RunOpenAfter(a, cls, inRun) by {
        if t != [] {
          assert t[|t| - 1] == a[|a| - 1];
        }
      }
      ConcatAssoc(Emitted(c, cls, inRun), SubRuns(t, cls, open), SubRuns(b, cls, RunOpenAfter(t, cls, open)));
    }
  }

  lemma ConcatAssoc(x: string, y: string, z: string)
    ensures x + (y + z) == (x + y) + z
  {
  }

  /** `Kept` of a text with a known first character. */
  lemma KeptCons(c: char, t: string, cls: CharClass)
    ensures Kept([c] + t, cls) == (if InClass(c, cls) || c == ' ' then [] else [c]) + Kept(t, cls)
  {
    assert ([c] + t)[0] == c && ([c] + t)[1..] == t;
  }

  /** The substitution only rewrites class runs into spaces: every other
      character is kept, in its order, and nothing else appears. */
  lemma {:induction false} SubRunsKeepsOthers(s: string, cls: CharClass, inRun: bool)
    ensures Kept(SubRuns(s, cls, inRun), cls) == Kept(s, cls)
    decreases |s|
  {
    if s != [] {
      var t, c := s[1..], s[0];
      var tail := SubRuns(t, cls, InClass(c, cls));
      SubRunsKeepsOthers(t, cls, InClass(c, cls));
      KeptCons(c, t, cls);
      assert s == [c] + t;
      if !(InClass(c, cls) && inRun) {
        var head := if InClass(c, cls) then ' ' else c;
        KeptCons(head, tail, cls);
      }
    }
  }

  /** `str.strip()`: drops leading and trailing whitespace. */
  function Strip(s: string): (r: string)
    ensures |r| <= |s|
    ensures |r| > 0 ==> !IsSpace(r[0]) && !IsSpace(r[|r| - 1])
    ensures (forall i :: 0 <= i < |s| ==> IsSpace(s[i])) ==> r == []
    ensures |s| > 0 && !IsSpace(s[0]) && !IsSpace(s[|s| - 1]) ==> r == s
  {
    StripEnd(StripStart(s))
  }

  /** `str.lstrip()`: the suffix left once the leading whitespace is dropped. */
  function StripStart(s: string): (r: string)
    ensures |r| <= |s| && r == s[|s| - |r|..]
    ensures |r| > 0 ==> !IsSpace(r[0])
    ensures forall i :: 0 <= i < |s| - |r| ==> IsSpace(s[i])
    decreases |s|
  {
    if s != [] && IsSpace(s[0]) then
      var r := StripStart(s[1..]);
      assert forall i :: 1 <= i < |s| ==> s[i] == s[1..][i - 1];
      r
    else s
  }

  /** `str.rstrip()`: the prefix left once the trailing whitespace is dropped. */
  function StripEnd(s: string): (r: string)
    ensures |r| <= |s| && r == s[..|r|]
    ensures |r| > 0 ==> !IsSpace(r[|r| - 1])
    ensures forall i :: |r| <= i < |s| ==> IsSpace(s[i])
    decreases |s|
  {
    if s != [] && IsSpace(s[|s| - 1]) then
      var r := StripEnd(s[..|s| - 1]);
      assert forall i :: 0 <= i < |s| - 1 ==> s[i] == s[..|s| - 1][i];
      r
    else s
  }

  /** The text part of `clean_address`. */
  function CleanText(s: string): string {
    SubRuns(Strip(SubRuns(s, LineBreak, false)), Whitespace, false)
  }

  /** `clean_address` on a cell: None for a missing, "N/A" or empty cell. */
  function CleanAddress(cell: Option<string>): (r: Option<string>)
    ensures r.None? <==> cell.None? || cell.value == Unknown || cell.value == ""
  {
    match cell
    case None => None
    case Some(s) => if s == Unknown || s == "" then None else Some(CleanText(s))
  }

  /** A cleaned text: its only whitespace is single spaces between other characters. */
  predicate Normalised(s: string) {
    && (forall i :: 0 <= i < |s| && InClass(s[i], Whitespace) ==> s[i] == ' ')
    && (forall i :: 0 <= i < |s| - 1 && InClass(s[i], Whitespace) ==> !InClass(s[i + 1], Whitespace))
    && (|s| > 0 ==> !InClass(s[0], Whitespace) && !InClass(s[|s| - 1], Whitespace))
  }

  /** A cleaned address cell, when there is one, holds a normalised text. */
  lemma CleanAddressNormalised(cell: Option<string>)
    ensures CleanAddress(cell).Some? ==> Normalised(CleanAddress(cell).value)
  {
    if cell.Some? && cell.value != Unknown && cell.value != "" {
      CleanTextNormalised(cell.value);
    }
  }

  /** The cleaned address holds no line feed or carriage return, no leading or
      trailing whitespace, and never two whitespace characters in a row. */
  lemma CleanTextNormalised(s: string)
    ensures Normalised(CleanText(s))
    ensures forall i :: 0 <= i < |CleanText(s)| ==> CleanText(s)[i] != '\n' && CleanText(s)[i] != '\r'
  {
    SubRunsNormalises(Strip(SubRuns(s, LineBreak, false)));
    NormalisedHasNoLineBreak(CleanText(s));
  }

  /** Collapsing the whitespace runs of a text that neither starts nor ends
      with whitespace leaves it normalised. */
  lemma SubRunsNormalises(t: string)
    requires |t| > 0 ==> !IsSpace(t[0]) && !IsSpace(t[|t| - 1])
    ensures Normalised(SubRuns(t, Whitespace, false))
  {
    var r := SubRuns(t, Whitespace, false);
    if |t| > 0 {
      assert !InClass(t[0], Whitespace) && !InClass(t[|t| - 1], Whitespace);
      assert r[0] == t[0] && r[|r| - 1] == t[|t| - 1];
    }
  }

  lemma NormalisedHasNoLineBreak(s: string)
    requires Normalised(s)
    ensures forall i :: 0 <= i < |s| ==> s[i] != '\n' && s[i] != '\r'
  {
    assert IsSpace('\n') && IsSpace('\r');
  }

  /** Collapsing runs of a class changes nothing in a text where the class
      occurs only as single spaces. */
  lemma {:induction false} SubRunsKeepsNormalised(s: string, cls: CharClass, inRun: bool)
    requires forall i :: 0 <= i < |s| && InClass(s[i], cls) ==> s[i] == ' '
    requires forall i :: 0 <= i < |s| - 1 && InClass(s[i], cls) ==> !InClass(s[i + 1], cls)
    requires inRun && |s| > 0 ==> !InClass(s[0], cls)
    ensures SubRuns(s, cls, inRun) == s
    decreases |s|
  {
    if s != [] {
      var t := s[1..];
      assert forall i :: 0 <= i < |t| ==> t[i] == s[i + 1];
      SubRunsKeepsNormalised(t, cls, InClass(s[0], cls));
      assert s == [s[0]] + t;
    }
  }

  lemma {:induction false} SubRunsWithoutClass(s: string, cls: CharClass, inRun: bool)
    requires forall i :: 0 <= i < |s| ==> !InClass(s[i], cls)
    ensures SubRuns(s, cls, inRun) == s
    decreases |s|
  {
    if s != [] {
      SubRunsWithoutClass(s[1..], cls, false);
    }
  }

  /** Cleaning a normalised text changes nothing. */
  lemma CleanTextFixes(s: string)
    requires Normalised(s)
    ensures CleanText(s) == s
  {
    NormalisedHasNoLineBreak(s);
    SubRunsWithoutClass(s, LineBreak, false);
    assert StripStart(s) == s;
    assert StripEnd(s) == s;
    SubRunsKeepsNormalised(s, Whitespace, false);
  }

  /** `clean_address` is idempotent: cleaning a cleaned address returns it
      unchanged, unless the cleaning left the empty string or "N/A", which a
      second call maps to None. */
  lemma CleanAddressIdempotent(cell: Option<string>)
    requires CleanAddress(cell).Some?
    ensures var c := CleanAddress(cell).value;
      c != "" && c != Unknown ==> CleanAddress(Some(c)) == Some(c)
  {
    CleanTextNormalised(cell.value);
    CleanTextFixes(CleanText(cell.value));
  }

  /** An address made only of whitespace cleans to the empty string, which
      the accumulation treats as no address. */
  lemma BlankAddressCleansToEmpty(s: string)
    requires s != "" && forall i :: 0 <= i < |s| ==> IsSpace(s[i])
    ensures CleanAddress(Some(s)) == Some("")
  {
    assert s != Unknown by {
      assert !IsSpace(Unknown[0]);
    }
    assert IsSpace(' ');
  }

  // ---------------------------------------------------------------------
  // Nature of industry

  /** `truncate_nature_of_industry`: the first 300 characters, None for a
      missing, "N/A" or empty cell. */
  function TruncateIndustry(cell: Option<string>): (r: Option<string>)
    ensures r.None? <==> cell.None? || cell.value == Unknown || cell.value == ""
    ensures r.Some? ==> |r.value| == if |cell.value| <= IndustryLimit then |cell.value| else IndustryLimit
    ensures r.Some? ==> r.value <= cell.value
    ensures r.Some? && |cell.value| <= IndustryLimit ==> r.value == cell.value
  {
    match cell
    case None => None
    case Some(s) =>
      if s == Unknown || s == "" then None
      else if |s| <= IndustryLimit then Some(s) else Some(s[..IndustryLimit])
  }

  // ---------------------------------------------------------------------
  // Validation status

  datatype Status = Valid | InvalidEmail | InvalidPhone | BothInvalid

  /** The `validation_status` column value. */
  function StatusName(s: Status): string {
    match s
    case Valid => "valid"
    case InvalidEmail => "invalid_email"
    case InvalidPhone => "invalid_phone"
    case BothInvalid => "both_invalid"
  }

  /** The status a row gets: "both_invalid" is the column default, overwritten
      when at least one contact is valid. */
  function ValidationStatus(phoneValid: bool, emailValid: bool): (s: Status)
    ensures s == Valid <==> phoneValid && emailValid
    ensures s == InvalidEmail <==> phoneValid && !emailValid
    ensures s == InvalidPhone <==> !phoneValid && emailValid
    ensures s == BothInvalid <==> !phoneValid && !emailValid
  {
    if phoneValid && emailValid then Valid
    else if phoneValid then InvalidEmail
    else if emailValid then InvalidPhone
    else BothInvalid
  }

  /** Which contacts a status says are valid. */
  function StatusFlags(s: Status): (bool, bool) {
    match s
    case Valid => (true, true)
    case InvalidEmail => (true, false)
    case InvalidPhone => (false, true)
    case BothInvalid => (false, false)
  }

  /** The status records both validity flags: it decodes back to them, and the
      four column values are distinct. */
  lemma StatusRoundTrip(phoneValid: bool, emailValid: bool, s1: Status, s2: Status)
    ensures StatusFlags(ValidationStatus(phoneValid, emailValid)) == (phoneValid, emailValid)
    ensures StatusName(s1) == StatusName(s2) ==> s1 == s2
  {
    if s1 != s2 {
      match s1
      case Valid => assert StatusName(s1)[0] == 'v';
      case InvalidEmail => assert StatusName(s1)[8] == 'e';
      case InvalidPhone => assert StatusName(s1)[8] == 'p';
      case BothInvalid => assert StatusName(s1)[0] == 'b';
    }
  }
}
