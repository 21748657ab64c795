/** Automatic number-plate recognition: the text normalisation and correction of a raw OCR
    reading against the UK plate grammar (two letters, two digits, three letters), the
    plate-to-vehicle geometry, and the per-frame loop that picks, for every vehicle, the first
    plate inside it whose reading corrects to a valid plate. The plate detector and the OCR
    reader are parameters of the model. */
module Plates {
  import opened Wrappers
  import opened BboxUtils
  import opened Records

  /** `max_character_length`. */
  const MaxCharacterLength := 7

  /** The text written when no plate was read for a vehicle. */
  const Occluded := "OCCLUDED"

  /** The one exception the plate stage raises: joining a `None` OCR result. */
  datatype PlateError = TypeError

  // ---------------------------------------------------------------------------------------
  // Python's str.upper and str.strip
  // ---------------------------------------------------------------------------------------

  /** `str.upper` on one character. Exact for ASCII and for every non-ASCII character whose
      upper case is made only of ASCII letters (dotless i, long s, sharp s and the Latin
      ligatures, some of which widen to two or three letters); every other character is kept,
      which cannot change a plate result, because any upper case it has in Python holds a
      character outside A-Z and 0-9. */
  function UpperChar(c: char): string
  {
    if c < '\U{80}' then (if 'a' <= c <= 'z' then [(c as int - 32) as char] else [c])
    else if c == '\U{131}' then "I"
    else if c == '\U{17F}' then "S"
    else if c == '\U{DF}' then "SS"
    else if c == '\U{FB00}' then "FF"
    else if c == '\U{FB01}' then "FI"
    else if c == '\U{FB02}' then "FL"
    else if c == '\U{FB03}' then "FFI"
    else if c == '\U{FB04}' then "FFL"
    else if c == '\U{FB05}' || c == '\U{FB06}' then "ST"
    else [c]
  }

  function Upper(s: string): string
  {
    if |s| == 0 then "" else UpperChar(s[0]) + Upper(s[1..])
  }

  /** A string `str.upper` leaves as it is, character by character. */
  predicate UpperFixed(s: string)
  {
    forall i :: 0 <= i < |s| ==> UpperChar(s[i]) == [s[i]]
  }

  lemma {:induction false} UpperKeepsFixed(s: string)
    ensures UpperFixed(s) ==> Upper(s) == s
  {
    if |s| > 0 && UpperFixed(s) {
      assert UpperFixed(s[1..]) by {
        forall i | 0 <= i < |s[1..]| ensures UpperChar(s[1..][i]) == [s[1..][i]] {
          assert s[1..][i] == s[i + 1];
        }
      }
      UpperKeepsFixed(s[1..]);
    }
  }

  lemma CapitalOrDigitFixed(c: char)
    requires 'A' <= c <= 'Z' || '0' <= c <= '9'
    ensures UpperChar(c) == [c]
  {
  }

  lemma UpperCharIsFixed(c: char)
    ensures UpperFixed(UpperChar(c))
  {
  }

  lemma FixedConcat(a: string, b: string)
    requires UpperFixed(a) && UpperFixed(b)
    ensures UpperFixed(a + b)
  {
    forall i | 0 <= i < |a + b| ensures UpperChar((a + b)[i]) == [(a + b)[i]] {
      if i < |a| { assert (a + b)[i] == a[i]; } else { assert (a + b)[i] == b[i - |a|]; }
    }
  }

  /** Everything `str.upper` produces is left alone by it: upper-casing is idempotent. */
  lemma {:induction false} UpperIsFixed(s: string)
    ensures UpperFixed(Upper(s))
    ensures Upper(Upper(s)) == Upper(s)
  {
    if |s| > 0 {
      UpperIsFixed(s[1..]);
      UpperCharIsFixed(s[0]);
      FixedConcat(UpperChar(s[0]), Upper(s[1..]));
    }
    UpperKeepsFixed(Upper(s));
  }

  /** `str.isspace`: the Unicode whitespace characters Python's `str.strip()` removes. */
  predicate IsSpace(c: char)
  {
    ('\t' <= c <= '\r') || ('\U{1C}' <= c <= ' ') || c == '\U{85}' || c == '\U{A0}' ||
    c == '\U{1680}' || ('\U{2000}' <= c <= '\U{200A}') || c == '\U{2028}' || c == '\U{2029}' ||
    c == '\U{202F}' || c == '\U{205F}' || c == '\U{3000}'
  }

  function LeadingSpaces(s: string): (n: nat)
    ensures n <= |s|
    ensures forall i :: 0 <= i < n ==> IsSpace(s[i])
    ensures n < |s| ==> !IsSpace(s[n])
  {
    if |s| == 0 || !IsSpace(s[0]) then 0 else 1 + LeadingSpaces(s[1..])
  }

  function TrailingSpaces(s: string): (n: nat)
    ensures n <= |s|
    ensures forall i :: |s| - n <= i < |s| ==> IsSpace(s[i])
    ensures n < |s| ==> !IsSpace(s[|s| - 1 - n])
  {
    if |s| == 0 || !IsSpace(s[|s| - 1]) then 0 else 1 + TrailingSpaces(s[..|s| - 1])
  }

  /** `str.strip()`: the string without its leading and trailing whitespace. */
  function Strip(s: string): (r: string)
    ensures |r| <= |s|
    ensures |r| > 0 ==> !IsSpace(r[0]) && !IsSpace(r[|r| - 1])
    ensures LeadingSpaces(s) == |s| ==> r == ""
    ensures LeadingSpaces(s) < |s| ==> r == s[LeadingSpaces(s)..|s| - TrailingSpaces(s)]
  {
    var a := LeadingSpaces(s);
    if a == |s| then ""
    else
      var b := TrailingSpaces(s);
      assert a < |s| - b;
      s[a..|s| - b]
  }

  /** Whitespace around the text is all `str.strip()` removes. */
  lemma StripRemovesOnlyPadding(pad1: string, core: string, pad2: string)
    requires forall i :: 0 <= i < |pad1| ==> IsSpace(pad1[i])
    requires forall i :: 0 <= i < |pad2| ==> IsSpace(pad2[i])
    requires |core| > 0 && !IsSpace(core[0]) && !IsSpace(core[|core| - 1])
    ensures Strip(pad1 + core + pad2) == core
  {
    var s := pad1 + core + pad2;
    LeadingExact(s, |pad1|);
    TrailingExact(s, |pad2|);
    assert s[|pad1|..|s| - |pad2|] == core;
  }

  lemma LeadingExact(s: string, n: nat)
    requires n < |s| && !IsSpace(s[n])
    requires forall i :: 0 <= i < n ==> IsSpace(s[i])
    ensures LeadingSpaces(s) == n
  {
  }

  lemma TrailingExact(s: string, n: nat)
    requires n < |s| && !IsSpace(s[|s| - 1 - n])
    requires forall i :: |s| - n <= i < |s| ==> IsSpace(s[i])
    ensures TrailingSpaces(s) == n
  {
  }

  /** `''.join(parts)`. */
  function Join(parts: seq<string>): (r: string)
    ensures |parts| == 1 ==> r == parts[0]
  {
    if |parts| == 0 then "" else parts[0] + Join(parts[1..])
  }

  // ---------------------------------------------------------------------------------------
  // The plate grammar
  // ---------------------------------------------------------------------------------------

  predicate IsLetter(c: char) { 'A' <= c <= 'Z' }
  predicate IsDigit(c: char) { '0' <= c <= '9' }

  /** Exactly seven characters: two letters, two digits, three letters. */
  predicate PlateGrammar(s: string)
  {
    |s| == 7 && IsLetter(s[0]) && IsLetter(s[1]) && IsDigit(s[2]) && IsDigit(s[3]) &&
    IsLetter(s[4]) && IsLetter(s[5]) && IsLetter(s[6])
  }

  /** `validate_plate_format`: `re.match` of `^([A-Z]{2})([0-9]{2})([A-Z]{3})$`. Python's `$`
      also matches just before a newline that ends the string, so a valid plate followed by
      one "\n" is accepted too. */
  predicate ValidatePlateFormat(s: string)
  {
    PlateGrammar(s) || (|s| == 8 && s[7] == '\n' && PlateGrammar(s[..7]))
  }

  /** A valid plate followed by a newline passes the format check. */
  lemma TrailingNewlineAccepted()
    ensures ValidatePlateFormat("AB12CDE\n")
    ensures !PlateGrammar("AB12CDE\n")
  {
    assert "AB12CDE\n"[..7] == "AB12CDE";
  }

  /** `character_conversion`: letters OCR confuses with digits, for the digit positions. */
  const CharacterConversion: map<char, char> :=
    map['O' := '0', 'I' := '1', 'J' := '3', 'A' := '4', 'G' := '6', 'S' := '5']

  /** `integer_conversion`: digits OCR confuses with letters, for the letter positions. */
  const IntegerConversion: map<char, char> :=
    map['0' := 'O', '1' := 'I', '3' := 'J', '4' := 'A', '6' := 'G', '5' := 'S']

  /** The two tables are each other's inverse, one maps letters to digits and the other digits
      to letters. */
  lemma ConversionTablesInverse()
    ensures forall k :: k in CharacterConversion ==>
      IsLetter(k) && IsDigit(CharacterConversion[k]) &&
      CharacterConversion[k] in IntegerConversion && IntegerConversion[CharacterConversion[k]] == k
    ensures forall k :: k in IntegerConversion ==>
      IsDigit(k) && IsLetter(IntegerConversion[k]) &&
      IntegerConversion[k] in CharacterConversion && CharacterConversion[IntegerConversion[k]] == k
  {
  }

  /** `''.join(table.get(key, key) for key in group)`. */
  function Convert(table: map<char, char>, group: string): (r: string)
    ensures |r| == |group|
  {
    seq(|group|, i requires 0 <= i < |group| => if group[i] in table then table[group[i]] else group[i])
  }

  /** Characters outside a table's keys pass through unchanged. */
  lemma {:induction false} ConvertOutsideKeys(table: map<char, char>, group: string)
    requires forall i :: 0 <= i < |group| ==> group[i] !in table
    ensures Convert(table, group) == group
  {
  }

  /** Letters are not keys of the digit-to-letter table. */
  lemma LettersKept(group: string)
    requires forall i :: 0 <= i < |group| ==> IsLetter(group[i])
    ensures Convert(IntegerConversion, group) == group
  {
    forall i | 0 <= i < |group| ensures group[i] !in IntegerConversion {
      assert IsLetter(group[i]);
    }
    ConvertOutsideKeys(IntegerConversion, group);
  }

  /** Digits are not keys of the letter-to-digit table. */
  lemma DigitsKept(group: string)
    requires forall i :: 0 <= i < |group| ==> IsDigit(group[i])
    ensures Convert(CharacterConversion, group) == group
  {
    forall i | 0 <= i < |group| ensures group[i] !in CharacterConversion {
      assert IsDigit(group[i]);
    }
    ConvertOutsideKeys(CharacterConversion, group);
  }

  /** The substitution tables do change characters the regex has not already placed: a digit
      in a letter position would become a letter. */
  lemma ConvertChangesConfusables()
    ensures Convert(IntegerConversion, "0I") == "OI"
    ensures Convert(CharacterConversion, "S1") == "51"
  {
  }

  /** `correct_plate_text`: reject anything not seven characters long, upper-case it, split it
      with the plate regex, substitute confusable characters group by group, and return the
      result when it passes the format check. */
  function CorrectPlateText(plateText: string): (r: Option<string>)
  {
    if |plateText| != MaxCharacterLength then None
    else
      var upper := Upper(plateText);
      if !ValidatePlateFormat(upper) then None
      else
        var areaCode := Convert(IntegerConversion, upper[0..2]);
        var regYear := Convert(CharacterConversion, upper[2..4]);
        var suffix := Convert(IntegerConversion, upper[4..7]);
        var corrected := areaCode + regYear + suffix;
        if ValidatePlateFormat(corrected) then Some(corrected) else None
  }

  /** The regex only matches strings whose groups already hold letters and digits, so the
      substitutions never change anything: the answer is the first seven characters of the
      upper-cased text exactly when its upper case matches the regex, and is always a
      grammatical plate. */
  lemma CorrectPlateTextCases(plateText: string)
    ensures CorrectPlateText(plateText).Some? <==>
      |plateText| == 7 && ValidatePlateFormat(Upper(plateText))
    ensures CorrectPlateText(plateText).Some? ==>
      var t := CorrectPlateText(plateText).value;
      PlateGrammar(t) && ValidatePlateFormat(t) && t == Upper(plateText)[..7]
    ensures CorrectPlateText(plateText).Some? && |Upper(plateText)| == 7 ==>
      CorrectPlateText(plateText).value == Upper(plateText)
  {
    if |plateText| == 7 {
      var upper := Upper(plateText);
      if ValidatePlateFormat(upper) {
        var g := upper[..7];
        assert PlateGrammar(g) by {
          if |upper| == 8 { assert g == upper[..7]; } else { assert g == upper; }
        }
        assert upper[0..2] == g[0..2] && upper[2..4] == g[2..4] && upper[4..7] == g[4..7];
        LettersKept(g[0..2]);
        DigitsKept(g[2..4]);
        LettersKept(g[4..7]);
        assert g[0..2] + g[2..4] + g[4..7] == g;
      }
    }
  }

  /** A grammatical plate is returned unchanged, and correcting twice is correcting once. */
  lemma CorrectPlateTextIdempotent(plateText: string)
    ensures PlateGrammar(plateText) ==> CorrectPlateText(plateText) == Some(plateText)
    ensures CorrectPlateText(plateText).Some? ==>
      CorrectPlateText(CorrectPlateText(plateText).value) == CorrectPlateText(plateText)
  {
    GrammarIsUpperFixed(plateText);
    UpperKeepsFixed(plateText);
    CorrectPlateTextCases(plateText);
    if CorrectPlateText(plateText).Some? {
      var t := CorrectPlateText(plateText).value;
      GrammarIsUpperFixed(t);
      UpperKeepsFixed(t);
      CorrectPlateTextCases(t);
    }
  }

  lemma GrammarIsUpperFixed(s: string)
    ensures PlateGrammar(s) ==> UpperFixed(s)
  {
  }

  /** Lower case is accepted: the text is upper-cased before the regex. */
  lemma LowerCaseCorrected()
    ensures CorrectPlateText("ab12cde") == Some("AB12CDE")
  {
    SampleUpperLower();
    CorrectPlateTextCases("ab12cde");
  }

  /** A digit in a letter position is not corrected: the regex rejects it before any
      substitution is applied. */
  lemma ConfusableRejected()
    ensures CorrectPlateText("A012CDE") == None
  {
    SampleUpperConfusable();
    CorrectPlateTextCases("A012CDE");
  }

  /** Seven characters whose upper case widens to a valid plate plus a final newline are
      accepted, and the answer is not the upper-cased text. */
  lemma WideningWithNewline()
    ensures Upper("AB12C\U{DF}\n") == "AB12CSS\n"
    ensures CorrectPlateText("AB12C\U{DF}\n") == Some("AB12CSS")
  {
    SampleUpperWidening();
    assert "AB12CSS\n"[..7] == "AB12CSS";
    assert ValidatePlateFormat("AB12CSS\n");
    CorrectPlateTextCases("AB12C\U{DF}\n");
  }

  // ---------------------------------------------------------------------------------------
  // Geometry and reading one plate
  // ---------------------------------------------------------------------------------------

  /** `abs_coords`: the plate box, given relative to the vehicle crop, moved into frame
      coordinates by the vehicle's truncated top-left corner. */
  function AbsoluteCoords(vehicle: Box, plate: Box): (abs: (int, int, int, int))
  {
    (Trunc(vehicle.x1) + Trunc(plate.x1), Trunc(vehicle.y1) + Trunc(plate.y1),
     Trunc(vehicle.x1) + Trunc(plate.x2), Trunc(vehicle.y1) + Trunc(plate.y2))
  }

  /** The absolute crop has the truncated plate box's size, and moving the vehicle by whole
      pixels moves the crop by the same amount. */
  lemma AbsoluteCoordsTranslate(vehicle: Box, plate: Box, dx: int, dy: int)
    ensures var a := AbsoluteCoords(vehicle, plate);
      a.2 - a.0 == Trunc(plate.x2) - Trunc(plate.x1) && a.3 - a.1 == Trunc(plate.y2) - Trunc(plate.y1)
    ensures vehicle.x1 >= 0.0 && vehicle.y1 >= 0.0 && dx >= 0 && dy >= 0 ==>
      var a := AbsoluteCoords(vehicle, plate);
      var b := AbsoluteCoords(Box(vehicle.x1 + dx as real, vehicle.y1 + dy as real, vehicle.x2, vehicle.y2), plate);
      b == (a.0 + dx, a.1 + dy, a.2 + dx, a.3 + dy)
  {
  }

  /** `match_plate_to_car`: the plate's center, moved into frame coordinates by the vehicle's
      top-left corner, lies inside the vehicle box (bounds included). */
  predicate MatchPlateToCar(vehicle: Box, plate: Box)
  {
    var c := CalculateCenterPoint(plate);
    vehicle.x1 <= c.x + vehicle.x1 <= vehicle.x2 && vehicle.y1 <= c.y + vehicle.y1 <= vehicle.y2
  }

  /** The test is the plate's own center against the vehicle's width and height. */
  lemma MatchPlateToCarRelative(vehicle: Box, plate: Box)
    ensures MatchPlateToCar(vehicle, plate) <==>
      var c := CalculateCenterPoint(plate);
      0.0 <= c.x <= vehicle.x2 - vehicle.x1 && 0.0 <= c.y <= vehicle.y2 - vehicle.y1
  {
  }

  /** A plate box that lies inside the vehicle crop always matches. */
  lemma PlateInsideCropMatches(vehicle: Box, plate: Box)
    requires 0.0 <= plate.x1 <= plate.x2 <= vehicle.x2 - vehicle.x1
    requires 0.0 <= plate.y1 <= plate.y2 <= vehicle.y2 - vehicle.y1
    ensures MatchPlateToCar(vehicle, plate)
  {
    var c := CalculateCenterPoint(plate);
    assert 0.0 <= Trunc(plate.x1) as real <= c.x <= Trunc(plate.x2) as real <= plate.x2;
    assert 0.0 <= Trunc(plate.y1) as real <= c.y <= Trunc(plate.y2) as real <= plate.y2;
    MatchPlateToCarRelative(vehicle, plate);
  }

  /** `extract_license_plate`, given what the OCR reader returned for the crop at
      `AbsoluteCoords`: a list of text fragments, or `None` when reading failed, which makes
      `''.join` raise. The fragments are joined, upper-cased, stripped and corrected. */
  function ExtractLicensePlate(ocrRead: Option<seq<string>>): (r: Result<Option<string>, PlateError>)
  {
    match ocrRead
    case None => Err(TypeError)
    case Some(parts) => Ok(CorrectPlateText(Strip(Upper(Join(parts)))))
  }

  /** A failed read raises; otherwise the answer is the cleaned reading itself, exactly when
      that is a grammatical plate. */
  lemma ExtractLicensePlateCases(ocrRead: Option<seq<string>>)
    ensures ExtractLicensePlate(ocrRead).Err? <==> ocrRead.None?
    ensures ocrRead.Some? ==>
      var raw := Strip(Upper(Join(ocrRead.value)));
      ExtractLicensePlate(ocrRead) == if PlateGrammar(raw) then Ok(Some(raw)) else Ok(None)
  {
    if ocrRead.Some? {
      var u := Upper(Join(ocrRead.value));
      UpperIsFixed(Join(ocrRead.value));
      StripKeepsUpperFixed(u);
      FixedCorrection(Strip(u));
    }
  }

  lemma StripKeepsUpperFixed(u: string)
    requires UpperFixed(u)
    ensures UpperFixed(Strip(u))
  {
    var raw := Strip(u);
    if LeadingSpaces(u) < |u| {
      forall i | 0 <= i < |raw| ensures UpperChar(raw[i]) == [raw[i]] {
        assert raw[i] == u[LeadingSpaces(u) + i];
      }
    }
  }

  /** A text already in upper case is corrected to itself exactly when it is a grammatical
      plate, and rejected otherwise. */
  lemma FixedCorrection(raw: string)
    requires UpperFixed(raw)
    ensures CorrectPlateText(raw) == if PlateGrammar(raw) then Some(raw) else None
  {
    UpperKeepsFixed(raw);
    CorrectPlateTextCases(raw);
    if PlateGrammar(raw) {
      CorrectPlateTextIdempotent(raw);
    }
  }

  /** A reading split into fragments and padded with spaces still gives the plate. */
  lemma FragmentedReadingAccepted()
    ensures ExtractLicensePlate(Some([" ab12", "CDE "])) == Ok(Some("AB12CDE"))
  {
    CleanedFragments();
    ExtractLicensePlateCases(Some([" ab12", "CDE "]));
  }

  lemma CleanedFragments()
    ensures Strip(Upper(Join([" ab12", "CDE "]))) == "AB12CDE"
    ensures PlateGrammar("AB12CDE")
  {
    SampleUpper();
    assert " " + "AB12CDE" + " " == " AB12CDE ";
    StripRemovesOnlyPadding(" ", "AB12CDE", " ");
  }

  lemma SampleUpper()
    ensures Upper(Join([" ab12", "CDE "])) == " AB12CDE "
  {
    assert Join([" ab12", "CDE "]) == " ab12" + "CDE ";
    UpperConcat(" ab12", "CDE ");
    SampleUpperParts();
  }

  lemma SampleUpperLower()
    ensures Upper("ab12cde") == "AB12CDE"
  {
    assert Upper("e") == "E";
    assert Upper("de") == "DE";
    assert Upper("cde") == "CDE";
    assert Upper("2cde") == "2CDE";
    assert Upper("12cde") == "12CDE";
    assert Upper("b12cde") == "B12CDE";
    assert Upper("ab12cde") == "AB12CDE";
  }

  lemma SampleUpperConfusable()
    ensures Upper("A012CDE") == "A012CDE"
  {
    CapitalsAndDigitsFixed("A012CDE");
  }

  /** Capital letters and digits are left alone by `str.upper`. */
  lemma CapitalsAndDigitsFixed(s: string)
    requires forall i :: 0 <= i < |s| ==> 'A' <= s[i] <= 'Z' || '0' <= s[i] <= '9'
    ensures Upper(s) == s
  {
    forall i | 0 <= i < |s| ensures UpperChar(s[i]) == [s[i]] {
      CapitalOrDigitFixed(s[i]);
    }
    UpperKeepsFixed(s);
  }

  lemma SampleUpperWidening()
    ensures Upper("AB12C\U{DF}\n") == "AB12CSS\n"
  {
    assert Upper("\n") == "\n";
    assert Upper("\U{DF}\n") == "SS\n";
    assert Upper("C\U{DF}\n") == "CSS\n";
    assert Upper("2C\U{DF}\n") == "2CSS\n";
    assert Upper("12C\U{DF}\n") == "12CSS\n";
    assert Upper("B12C\U{DF}\n") == "B12CSS\n";
    assert Upper("AB12C\U{DF}\n") == "AB12CSS\n";
  }

  lemma SampleUpperParts()
    ensures Upper(" ab12") == " AB12"
    ensures Upper("CDE ") == "CDE "
  {
    UpperConcat(" a", "b12");
    assert " a" + "b12" == " ab12";
  }

  /** Upper-casing works character by character. */
  lemma {:induction false} UpperConcat(a: string, b: string)
    ensures Upper(a + b) == Upper(a) + Upper(b)
  {
    if |a| > 0 {
      assert (a + b)[1..] == a[1..] + b;
      UpperConcat(a[1..], b);
    } else {
      assert a + b == b;
    }
  }

  // ---------------------------------------------------------------------------------------
  // The per-frame loop
  // ---------------------------------------------------------------------------------------

  /** The plate detections the plate detector reports for vehicle `i` of the frame. */
  type PlateDetector = nat -> seq<Inference>

  /** What the OCR reader returns for plate `j` of vehicle `i`. */
  type PlateReader = (nat, nat) -> Option<seq<string>>

  /** A plate the loop passes over, given what reading it gave: outside the vehicle, or read
      without a plate text. */
  predicate Passed(vehicle: Box, plate: Inference, reading: Result<Option<string>, PlateError>)
  {
    !MatchPlateToCar(vehicle, plate.box) ||
    (reading.Ok? && (reading.value.None? || reading.value.value == ""))
  }

  /** The inner loop from plate `from` on: the index and text of the first plate that matches
      the vehicle and reads as a non-empty plate text, nothing when every plate is passed over,
      or the error of a failed read met before that. */
  function FirstAcceptedPlate(vehicle: Box, plates: seq<Inference>, ocr: nat -> Option<seq<string>>, from: nat)
    : (r: Result<Option<(nat, string)>, PlateError>)
    decreases |plates| - from
    ensures r.Ok? && r.value.Some? ==> from <= r.value.value.0 < |plates|
  {
    if from >= |plates| then Ok(None)
    else if !MatchPlateToCar(vehicle, plates[from].box) then FirstAcceptedPlate(vehicle, plates, ocr, from + 1)
    else
      var reading := ExtractLicensePlate(ocr(from));
      if reading.Err? then Err(reading.error)
      else if reading.value.Some? && reading.value.value != "" then Ok(Some((from, reading.value.value)))
      else FirstAcceptedPlate(vehicle, plates, ocr, from + 1)
  }

  /** Every plate of `plates[lo..hi]` is passed over. */
  predicate AllPassed(vehicle: Box, plates: seq<Inference>, ocr: nat -> Option<seq<string>>, lo: nat, hi: nat)
    requires hi <= |plates|
  {
    forall j :: lo <= j < hi ==> Passed(vehicle, plates[j], ExtractLicensePlate(ocr(j)))
  }

  /** The scan's answer is the first plate inside the vehicle that gives a text, every plate
      before it having been passed over; no answer means every plate was passed over; an error
      comes from a failed read of a plate inside the vehicle, all before it passed over. */
  lemma {:induction false} FirstAcceptedPlateSpec(vehicle: Box, plates: seq<Inference>, ocr: nat -> Option<seq<string>>, from: nat)
    decreases |plates| - from
    ensures var r := FirstAcceptedPlate(vehicle, plates, ocr, from);
      r.Ok? && r.value.Some? ==>
        var (k, text) := r.value.value;
        from <= k < |plates| && MatchPlateToCar(vehicle, plates[k].box) &&
        ExtractLicensePlate(ocr(k)) == Ok(Some(text)) && text != "" &&
        AllPassed(vehicle, plates, ocr, from, k)
    ensures var r := FirstAcceptedPlate(vehicle, plates, ocr, from);
      r.Ok? && r.value.None? ==> AllPassed(vehicle, plates, ocr, from, |plates|)
    ensures var r := FirstAcceptedPlate(vehicle, plates, ocr, from);
      r.Err? ==>
        exists k :: from <= k < |plates| && MatchPlateToCar(vehicle, plates[k].box) && ocr(k).None? &&
          AllPassed(vehicle, plates, ocr, from, k)
  {
    if from < |plates| {
      var reading := ExtractLicensePlate(ocr(from));
      var r := FirstAcceptedPlate(vehicle, plates, ocr, from);
      if !MatchPlateToCar(vehicle, plates[from].box) || (reading.Ok? && !(reading.value.Some? && reading.value.value != "")) {
        assert Passed(vehicle, plates[from], reading);
        assert r == FirstAcceptedPlate(vehicle, plates, ocr, from + 1);
        FirstAcceptedPlateSpec(vehicle, plates, ocr, from + 1);
        if r.Ok? && r.value.Some? {
          PassedExtend(vehicle, plates, ocr, from, r.value.value.0);
        } else if r.Ok? {
          PassedExtend(vehicle, plates, ocr, from, |plates|);
        } else {
          var k :| from + 1 <= k < |plates| && MatchPlateToCar(vehicle, plates[k].box) && ocr(k).None? &&
            AllPassed(vehicle, plates, ocr, from + 1, k);
          PassedExtend(vehicle, plates, ocr, from, k);
        }
      } else if reading.Err? {
        assert ocr(from).None?;
        assert AllPassed(vehicle, plates, ocr, from, from);
      } else {
        assert AllPassed(vehicle, plates, ocr, from, from);
      }
    }
  }

  lemma PassedExtend(vehicle: Box, plates: seq<Inference>, ocr: nat -> Option<seq<string>>, from: nat, hi: nat)
    requires from < hi <= |plates|
    requires Passed(vehicle, plates[from], ExtractLicensePlate(ocr(from)))
    requires AllPassed(vehicle, plates, ocr, from + 1, hi)
    ensures AllPassed(vehicle, plates, ocr, from, hi)
  {
  }

  /** What one vehicle's `license_plate` entry becomes when no plate was read: its existing
      entry (or a new one) with the text set to the sentinel. */
  function OccludedRecord(d: Detection): PlateRecord
  {
    PlateRecord(if d.plate.Some? then d.plate.value.region else None, Occluded)
  }

  /** One vehicle of `process_detection_plates`. */
  function ProcessPlate(d: Detection, plates: seq<Inference>, ocr: nat -> Option<seq<string>>)
    : (r: Result<Detection, PlateError>)
  {
    if |plates| == 0 then Ok(d.(plate := Some(OccludedRecord(d))))
    else
      match FirstAcceptedPlate(d.base.box, plates, ocr, 0)
      case Err(e) => Err(e)
      case Ok(None) => Ok(d.(plate := Some(OccludedRecord(d))))
      case Ok(Some((k, text))) => Ok(d.(plate := Some(PlateRecord(Some(plates[k]), text))))
  }

  /** Every vehicle leaves with a plate record whose text is the sentinel or a grammatical plate
      read from the first plate inside it that gave one; nothing else of the detection changes. */
  lemma ProcessPlateEffect(d: Detection, plates: seq<Inference>, ocr: nat -> Option<seq<string>>)
    ensures var r := ProcessPlate(d, plates, ocr);
      r.Ok? ==> r.value.plate.Some? && r.value.(plate := d.plate) == d
    ensures var r := ProcessPlate(d, plates, ocr);
      r.Ok? && r.value.plate.value.text != Occluded ==>
        r.value.plate.value.region.Some? &&
        exists k :: 0 <= k < |plates| && r.value.plate.value.region.value == plates[k] &&
          MatchPlateToCar(d.base.box, plates[k].box) &&
          ExtractLicensePlate(ocr(k)) == Ok(Some(r.value.plate.value.text)) &&
          PlateGrammar(r.value.plate.value.text) &&
          AllPassed(d.base.box, plates, ocr, 0, k)
    ensures var r := ProcessPlate(d, plates, ocr);
      r.Ok? && r.value.plate.value.text == Occluded ==>
        r.value.plate.value == OccludedRecord(d) && AllPassed(d.base.box, plates, ocr, 0, |plates|)
    ensures AllPassed(d.base.box, plates, ocr, 0, |plates|) ==>
      ProcessPlate(d, plates, ocr) == Ok(d.(plate := Some(OccludedRecord(d))))
    ensures ProcessPlate(d, plates, ocr).Err? ==>
      exists k :: 0 <= k < |plates| && MatchPlateToCar(d.base.box, plates[k].box) && ocr(k).None? &&
        AllPassed(d.base.box, plates, ocr, 0, k)
  {
    var r := ProcessPlate(d, plates, ocr);
    if |plates| > 0 {
      var f := FirstAcceptedPlate(d.base.box, plates, ocr, 0);
      FirstAcceptedPlateSpec(d.base.box, plates, ocr, 0);
      if f.Ok? && f.value.Some? {
        var (k, text) := f.value.value;
        ExtractLicensePlateCases(ocr(k));
        assert PlateGrammar(text);
        assert r.value.plate.value.text != Occluded;
        assert !Passed(d.base.box, plates[k], ExtractLicensePlate(ocr(k)));
      } else if f.Err? {
        var k :| 0 <= k < |plates| && MatchPlateToCar(d.base.box, plates[k].box) && ocr(k).None? &&
          AllPassed(d.base.box, plates, ocr, 0, k);
        assert !Passed(d.base.box, plates[k], ExtractLicensePlate(ocr(k)));
      }
    }
  }

  /** `process_detection_plates` over the whole frame: every vehicle in turn, stopping at the
      first raised error. */
  function ProcessPlates(detections: seq<Detection>, detectPlates: PlateDetector, readText: PlateReader)
    : (r: Result<seq<Detection>, PlateError>)
    decreases |detections|
  {
    if |detections| == 0 then Ok([])
    else
      match ProcessPlates(detections[..|detections| - 1], detectPlates, readText)
      case Err(e) => Err(e)
      case Ok(done) =>
        var i := |detections| - 1;
        match ProcessPlate(detections[i], detectPlates(i), (j: nat) => readText(i, j))
        case Err(e) => Err(e)
        case Ok(d) => Ok(done + [d])
  }

  /** Vehicle by vehicle: a successful frame keeps the list's length and order and annotates
      each vehicle as one call of the inner loop would. */
  lemma {:induction false} ProcessPlatesPointwise(detections: seq<Detection>, detectPlates: PlateDetector, readText: PlateReader)
    ensures var r := ProcessPlates(detections, detectPlates, readText);
      r.Ok? ==> (|r.value| == |detections| &&
        forall i :: 0 <= i < |detections| ==>
          ProcessPlate(detections[i], detectPlates(i), (j: nat) => readText(i, j)) == Ok(r.value[i]))
  {
    if |detections| > 0 {
      var prefix := detections[..|detections| - 1];
      ProcessPlatesPointwise(prefix, detectPlates, readText);
      var r := ProcessPlates(detections, detectPlates, readText);
      if r.Ok? {
        var done := ProcessPlates(prefix, detectPlates, readText).value;
        forall i | 0 <= i < |detections|
          ensures ProcessPlate(detections[i], detectPlates(i), (j: nat) => readText(i, j)) == Ok(r.value[i])
        {
          if i < |prefix| { assert detections[i] == prefix[i]; assert r.value[i] == done[i]; }
        }
      }
    }
  }

  /** One more vehicle processed without error extends the frame's successful result by it. */
  lemma ProcessPlatesSnoc(detections: seq<Detection>, i: nat, detectPlates: PlateDetector, readText: PlateReader,
                          processed: seq<Detection>, d: Detection)
    requires i < |detections|
    requires ProcessPlates(detections[..i], detectPlates, readText) == Ok(processed)
    requires ProcessPlate(detections[i], detectPlates(i), (j: nat) => readText(i, j)) == Ok(d)
    ensures ProcessPlates(detections[..i + 1], detectPlates, readText) == Ok(processed + [d])
  {
    assert detections[..i + 1][..i] == detections[..i];
  }

  /** Once one vehicle's reading fails, the frame as a whole fails, whatever follows. */
  lemma {:induction false} ProcessPlatesErrorPersists(detections: seq<Detection>, k: nat, detectPlates: PlateDetector, readText: PlateReader)
    requires k <= |detections|
    requires ProcessPlates(detections[..k], detectPlates, readText).Err?
    ensures ProcessPlates(detections, detectPlates, readText) == ProcessPlates(detections[..k], detectPlates, readText)
    decreases |detections| - k
  {
    if k < |detections| {
      assert detections[..k + 1][..k] == detections[..k];
      ProcessPlatesErrorPersists(detections, k + 1, detectPlates, readText);
    } else {
      assert detections[..k] == detections;
    }
  }

  /** `process_detection_plates`: for each vehicle, run the plate detector on its crop; with no
      plate it is occluded; otherwise scan the plates in order and take the first one inside
      the vehicle whose reading corrects to a plate text, breaking out of the scan; a vehicle
      that got none is occluded. A failed OCR read raises out of the whole call. */
  method ProcessDetectionPlates(detections: seq<Detection>, detectPlates: PlateDetector, readText: PlateReader)
    returns (r: Result<seq<Detection>, PlateError>)
    ensures r == ProcessPlates(detections, detectPlates, readText)
  {
    var processed: seq<Detection> := [];
    var i := 0;
    while i < |detections|
      invariant 0 <= i <= |detections|
      invariant ProcessPlates(detections[..i], detectPlates, readText) == Ok(processed)
    {
      var original := detections[i];
      var ocr := (j: nat) => readText(i, j);
      var detection := original;
      var plateFound := false;
      var record := if detection.plate.Some? then detection.plate.value else PlateRecord(None, Occluded);
      detection := detection.(plate := Some(record));
      var plates := detectPlates(i);
      assert detections[..i + 1][..i] == detections[..i];
      if |plates| == 0 {
        detection := detection.(plate := Some(record.(text := Occluded)));
        processed := processed + [detection];
        i := i + 1;
        continue;
      }
      var j := 0;
      while j < |plates|
        invariant 0 <= j <= |plates|
        invariant FirstAcceptedPlate(original.base.box, plates, ocr, 0) == FirstAcceptedPlate(original.base.box, plates, ocr, j)
        invariant detection == original.(plate := Some(record))
      {
        if MatchPlateToCar(detection.base.box, plates[j].box) {
          var licensePlate := ExtractLicensePlate(readText(i, j));
          if licensePlate.Err? {
            r := Err(licensePlate.error);
            ProcessPlatesErrorPersists(detections, i + 1, detectPlates, readText);
            return;
          }
          if licensePlate.value.Some? && licensePlate.value.value != "" {
            detection := detection.(plate := Some(PlateRecord(Some(plates[j]), licensePlate.value.value)));
            plateFound := true;
            break;
          }
        }
        j := j + 1;
      }
      if !plateFound {
        detection := detection.(plate := Some(detection.plate.value.(text := Occluded)));
      }
      assert ProcessPlate(original, plates, ocr) == Ok(detection);
      ProcessPlatesSnoc(detections, i, detectPlates, readText, processed, detection);
      processed := processed + [detection];
      i := i + 1;
    }
    assert detections[..i] == detections;
    r := Ok(processed);
  }
}
