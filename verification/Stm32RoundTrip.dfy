/** Parsing inverts printing: the board's measurement lines and its two status comments. */
module Stm32RoundTrip {
  import opened Numbers
  import opened PyText
  import opened Stm32Protocol
  import G = ObstacleGuard

  function Digits(n: nat): (s: string)
    ensures s != [] && AllDigits(s)
  {
    if n < 10 then ['0' + n as char] else Digits(n / 10) + ['0' + (n % 10) as char]
  }

  /** The last k digits of n, with leading zeros. */
  function LastDigits(n: nat, k: nat): (s: string)
    ensures |s| == k && AllDigits(s)
  {
    if k == 0 then [] else LastDigits(n / 10, k - 1) + ['0' + (n % 10) as char]
  }

  /** n without its last k digits. */
  function DropDigits(n: nat, k: nat): nat {
    if k == 0 then n else DropDigits(n / 10, k - 1)
  }

  /** A number of 10^-places units, printed with that many decimals. */
  function Fixed(units: int, places: nat): string {
    var n: nat := if units < 0 then -units else units;
    (if units < 0 then "-" else "") + Digits(DropDigits(n, places)) + "." + LastDigits(n, places)
  }

  function Field(key: string, value: string): string {
    key + ":" + value
  }

  /** A reading as the board prints it: distances in tenths of a centimetre, and volts in
      hundredths. */
  function FormatReading(left: int, right: int, volts: Option<int>): string {
    Field("D1", Fixed(left, 1)) + "," + Field("D2", Fixed(right, 1))
    + (if volts.Some? then "," + Field("V", Fixed(volts.value, 2)) else "") + "\r\n"
  }

  lemma {:induction false} ValueOfDigits(n: nat)
    ensures ValueOf(Digits(n)) == n
  {
    var s := Digits(n);
    if n < 10 {
      assert s[..0] == [];
    } else {
      ValueOfDigits(n / 10);
      assert s[..|s| - 1] == Digits(n / 10);
    }
  }

  lemma {:induction false} DigitsMakeUp(n: nat, k: nat)
    ensures DropDigits(n, k) * Power10(k) + ValueOf(LastDigits(n, k)) == n
  {
    if k > 0 {
      var s := LastDigits(n, k);
      DigitsMakeUp(n / 10, k - 1);
      assert s[..k - 1] == LastDigits(n / 10, k - 1);
      TenTimes(DropDigits(n / 10, k - 1), Power10(k - 1));
    }
  }

  lemma TenTimes(d: nat, p: nat)
    ensures d * (10 * p) == 10 * (d * p)
  {
  }

  lemma DigitsLackPoint(s: string)
    requires AllDigits(s)
    ensures '.' !in s && '-' !in s && ',' !in s && ':' !in s
  {
  }

  lemma SumPer(x: real, y: real, q: real)
    requires q > 0.0
    ensures x + y / q == (x * q + y) / q && -(x + y / q) == -(x * q + y) / q
  {
  }

  lemma MixedFraction(whole: nat, rest: nat, p: nat, negative: bool)
    requires p > 0
    ensures var magnitude := whole as real + Per(rest, p);
            (if negative then -magnitude else magnitude)
            == Per(if negative then -(whole * p + rest) else whole * p + rest, p)
  {
    SumPer(whole as real, rest as real, p as real);
    assert (whole * p) as real == whole as real * p as real;
    assert (-(whole * p + rest)) as real == -(whole as real * p as real + rest as real);
  }

  lemma SplitAtPoint(whole: string, rest: string)
    requires whole != [] && AllDigits(whole)
    ensures var digits := whole + ['.'] + rest;
            && IndexOf(digits, '.') == |whole| && digits[..|whole|] == whole
            && digits[|whole| + 1..] == rest && '0' <= digits[0] <= '9'
  {
    DigitsLackPoint(whole);
    IndexPast(whole, rest, '.');
    var digits := whole + ['.'] + rest;
    assert digits[0] == whole[0] && '0' <= whole[0] <= '9';
    hide IndexOf;
  }

  lemma ParsePlain(negative: bool, whole: string, rest: string, other: string -> Float)
    requires whole != [] && rest != [] && AllDigits(whole) && AllDigits(rest)
    ensures ParseFloat((if negative then ['-'] else []) + (whole + ['.'] + rest), other)
            == Number(Signed(negative, whole, rest))
  {
    hide Signed;
    hide AllDigits;
    hide IndexOf;
    SplitAtPoint(whole, rest);
    var digits := whole + ['.'] + rest;
    if negative {
      var text := ['-'] + digits;
      assert text[0] == '-' && text[1..] == digits;
    } else {
      assert [] + digits == digits;
    }
  }

  /** A plus sign changes nothing. */
  lemma PlusSign(whole: string, rest: string, other: string -> Float)
    requires whole != [] && rest != [] && AllDigits(whole) && AllDigits(rest)
    ensures ParseFloat(['+'] + (whole + ['.'] + rest), other) == Number(Signed(false, whole, rest))
  {
    hide Signed;
    hide AllDigits;
    hide IndexOf;
    SplitAtPoint(whole, rest);
    var digits := whole + ['.'] + rest;
    var text := ['+'] + digits;
    assert text[0] == '+' && text[1..] == digits;
  }

  /** A number need not have a point. */
  lemma WholeNumber(whole: string, other: string -> Float)
    requires whole != [] && AllDigits(whole)
    ensures ParseFloat(whole, other) == Number(ValueOf(whole) as real)
  {
    DigitsLackPoint(whole);
    IndexPast(whole, "", '.');
    NothingBehindPoint(whole);
    assert '0' <= whole[0] <= '9' && whole[..|whole|] == whole;
    hide IndexOf;
    hide Signed;
  }

  lemma NothingBehindPoint(whole: string)
    requires AllDigits(whole)
    ensures AllDigits("0") && Signed(false, whole, "0") == ValueOf(whole) as real
  {
    assert "0"[..0] == "";
    assert ValueOf("0") == 10 * ValueOf("") + 0;
  }

  lemma SignedFixed(units: int, places: nat)
    ensures var n: nat := if units < 0 then -units else units;
            Signed(units < 0, Digits(DropDigits(n, places)), LastDigits(n, places))
            == Per(units, Power10(places))
  {
    hide Power10;
    hide ValueOf;
    hide Digits;
    hide LastDigits;
    hide DropDigits;
    hide Per;
    var n: nat := if units < 0 then -units else units;
    ValueOfDigits(DropDigits(n, places));
    DigitsMakeUp(n, places);
    MixedFraction(DropDigits(n, places), ValueOf(LastDigits(n, places)), Power10(places), units < 0);
  }

  lemma ParseFixed(units: int, places: nat, other: string -> Float)
    requires places > 0
    ensures ParseFloat(Fixed(units, places), other) == Number(Per(units, Power10(places)))
  {
    hide Power10;
    hide Digits;
    hide LastDigits;
    hide DropDigits;
    hide ParseFloat;
    hide Signed;
    SignedFixed(units, places);
    var n: nat := if units < 0 then -units else units;
    var whole, rest := Digits(DropDigits(n, places)), LastDigits(n, places);
    ParsePlain(units < 0, whole, rest, other);
    assert Fixed(units, places) == (if units < 0 then ['-'] else []) + (whole + ['.'] + rest);
  }

  lemma FixedIsPlain(units: int, places: nat)
    requires places > 0
    ensures var s := Fixed(units, places);
            s != [] && ',' !in s && ':' !in s && !IsSpace(s[0]) && !IsSpace(s[|s| - 1])
  {
    hide Digits;
    hide LastDigits;
    var n: nat := if units < 0 then -units else units;
    var whole, rest := Digits(DropDigits(n, places)), LastDigits(n, places);
    DigitsLackPoint(whole);
    DigitsLackPoint(rest);
    var s := Fixed(units, places);
    assert s[|s| - 1] == rest[places - 1] && s[0] == if units < 0 then '-' else whole[0];
    assert '0' <= rest[places - 1] <= '9' && '0' <= whole[0] <= '9';
    hide AllDigits;
    hide DropDigits;
  }

  lemma PlainKeyValue(key: string, value: string)
    requires key != [] && value != [] && ':' !in key
    requires !IsSpace(key[0]) && !IsSpace(key[|key| - 1]) && !IsSpace(value[0]) && !IsSpace(value[|value| - 1])
    ensures KeyValue(Field(key, value)) == Some((key, value))
  {
    var s := Field(key, value);
    IndexPast(key, value, ':');
    assert s == key + [':'] + value;
    assert s[..|key|] == key && s[|key| + 1..] == value;
  }

  function PrintedFields(left: int, right: int, volts: Option<int>): seq<string> {
    [Field("D1", Fixed(left, 1)), Field("D2", Fixed(right, 1))]
    + if volts.Some? then [Field("V", Fixed(volts.value, 2))] else []
  }

  /** The dictionary of a printed line. */
  function PrintedMap(left: int, right: int, volts: Option<int>): map<string, string> {
    var m := map["D1" := Fixed(left, 1), "D2" := Fixed(right, 1)];
    if volts.Some? then m["V" := Fixed(volts.value, 2)] else m
  }

  lemma PrintedText(left: int, right: int, volts: Option<int>)
    ensures FormatReading(left, right, volts) == Join(PrintedFields(left, right, volts)) + ['\r'] + ['\n']
  {
    hide Fixed;
    hide Field;
    var fields := PrintedFields(left, right, volts);
    var d1, d2 := Field("D1", Fixed(left, 1)), Field("D2", Fixed(right, 1));
    if volts.Some? {
      var v := Field("V", Fixed(volts.value, 2));
      assert fields[1..] == [d2, v] && [d2, v][1..] == [v];
      assert Join([v]) == v && Join([d2, v]) == d2 + "," + v;
      assert Join(fields) == d1 + "," + (d2 + "," + v);
    } else {
      assert fields[1..] == [d2];
      assert Join([d2]) == d2 && Join(fields) == d1 + "," + d2;
    }
  }

  lemma FieldIsPlain(key: string, units: int, places: nat)
    requires places > 0 && key != [] && !IsSpace(key[0]) && !IsSpace(key[|key| - 1])
    requires ':' !in key && ',' !in key
    ensures var f := Field(key, Fixed(units, places));
            ',' !in f && f[0] == key[0] && KeyValue(f) == Some((key, Fixed(units, places)))
  {
    FixedIsPlain(units, places);
    PlainKeyValue(key, Fixed(units, places));
  }

  lemma LineOfFields(fields: seq<string>)
    requires fields != [] && NoComma(fields) && fields[0] != [] && fields[0][0] == 'D'
    ensures var line := Join(fields) + ['\r'] + ['\n'];
            Parts(SplitCommas(line)) == Parts(fields) && !IsComment(line)
  {
    hide Parts;
    var text := Join(fields);
    SplitOfJoin(fields);
    SplitIgnoresTrailing(text, '\r');
    SplitIgnoresTrailing(text + ['\r'], '\n');
    hide SplitCommas;
    assert text != [] && text[0] == 'D';
    StripIgnoresTrailing(text, '\r');
    StripIgnoresTrailing(text + ['\r'], '\n');
    StartIsKept(text);
  }

  lemma PrintedLine(left: int, right: int, volts: Option<int>)
    ensures var line := FormatReading(left, right, volts);
            && Parts(SplitCommas(line)) == Parts(PrintedFields(left, right, volts))
            && !IsComment(line)
  {
    var fields := PrintedFields(left, right, volts);
    FieldIsPlain("D1", left, 1);
    FieldIsPlain("D2", right, 1);
    if volts.Some? {
      FieldIsPlain("V", volts.value, 2);
    }
    PrintedText(left, right, volts);
    hide Field;
    hide KeyValue;
    hide FormatReading;
    LineOfFields(fields);
  }

  lemma DistanceFields(left: int, right: int)
    ensures FieldMap([Field("D1", Fixed(left, 1)), Field("D2", Fixed(right, 1))])
            == Some(map["D1" := Fixed(left, 1), "D2" := Fixed(right, 1)])
  {
    FieldIsPlain("D1", left, 1);
    FieldIsPlain("D2", right, 1);
    hide Fixed;
    hide KeyValue;
    hide Field;
    var d1, d2 := Field("D1", Fixed(left, 1)), Field("D2", Fixed(right, 1));
    OneMoreField([], d1);
    assert [] + [d1] == [d1] && "D1"[1] != "D2"[1];
    OneMoreField([d1], d2);
    assert [d1] + [d2] == [d1, d2];
  }

  lemma PrintedFieldMap(left: int, right: int, volts: Option<int>)
    ensures FieldMap(SplitCommas(FormatReading(left, right, volts))) == Some(PrintedMap(left, right, volts))
  {
    hide Fixed;
    hide KeyValue;
    hide Field;
    hide FormatReading;
    hide SplitCommas;
    hide FieldMap;
    PrintedLine(left, right, volts);
    var fields := PrintedFields(left, right, volts);
    SamePartsSameMap(SplitCommas(FormatReading(left, right, volts)), fields);
    DistanceFields(left, right);
    var two := [Field("D1", Fixed(left, 1)), Field("D2", Fixed(right, 1))];
    if volts.Some? {
      FieldIsPlain("V", volts.value, 2);
      assert |"V"| != |"D1"|;
      OneMoreField(two, Field("V", Fixed(volts.value, 2)));
    } else {
      assert fields == two;
    }
  }

  lemma PositivePer(n: int)
    ensures Per(n, 10) > 0.0 <==> n > 0
  {
  }

  lemma PrintedMeaning(left: int, right: int, volts: Option<int>, other: string -> Float)
    ensures ReadingOf(PrintedMap(left, right, volts), other) ==
            Some(Reading(if left > 0 then Some(Per(left, 10)) else None,
                         if right > 0 then Some(Per(right, 10)) else None,
                         if volts.Some? then Some(Per(volts.value, 100)) else None))
  {
    assert Power10(1) == 10 && Power10(2) == 10 * Power10(1);
    hide Power10;
    hide ParseFloat;
    PositivePer(left);
    PositivePer(right);
    hide Per;
    ParseFixed(left, 1, other);
    ParseFixed(right, 1, other);
    if volts.Some? {
      ParseFixed(volts.value, 2, other);
    }
    hide Fixed;
    PrintedKeys(left, right, volts);
    hide PrintedMap;
  }

  lemma PrintedKeys(left: int, right: int, volts: Option<int>)
    ensures var m := PrintedMap(left, right, volts);
            && "D1" in m && m["D1"] == Fixed(left, 1) && "D2" in m && m["D2"] == Fixed(right, 1)
            && ("V" in m <==> volts.Some?) && (volts.Some? ==> m["V"] == Fixed(volts.value, 2))
  {
    hide Fixed;
    assert |"V"| != |"D1"| && "D1"[1] != "D2"[1];
  }

  /** Parsing inverts printing for all tenths and hundredths; a distance that is not positive
      is no echo. */
  lemma ParsePrintedReading(left: int, right: int, volts: Option<int>, other: string -> Float)
    ensures ParseLine(FormatReading(left, right, volts), other) ==
            Some(Reading(if left > 0 then Some(Per(left, 10)) else None,
                         if right > 0 then Some(Per(right, 10)) else None,
                         if volts.Some? then Some(Per(volts.value, 100)) else None))
  {
    hide ParseLine;
    hide FormatReading;
    hide Fixed;
    hide IsComment;
    hide SplitCommas;
    hide FieldMap;
    hide ReadingOf;
    PrintedLine(left, right, volts);
    PrintedFieldMap(left, right, volts);
    ParseLineMeaning(FormatReading(left, right, volts), other);
    PrintedMeaning(left, right, volts, other);
  }

  /** A word and what follows it are told apart at the space between them. */
  lemma WordsApart(word: string, detail: string)
    requires word != [] && Trimmed(detail) && forall i :: 0 <= i < |word| ==> !IsSpace(word[i])
    ensures var words := word + [' '] + detail;
            && StripLeft([' '] + words) == words && FirstSpace(words) == |word|
            && words[..|word|] == word && Strip(words[|word|..]) == detail
  {
    var words := word + [' '] + detail;
    assert ([' '] + words)[1..] == words && words[0] == word[0];
    assert StripLeft([' '] + words) == StripLeft(words) == words;
    hide StripLeft;
    FirstSpaceIs(word, detail);
    hide FirstSpace;
    assert words[|word|..] == [' '] + detail;
    StripIgnoresLeading(' ', detail);
    StripTrimmed(detail);
    hide Strip;
  }

  predicate IsWord(word: string) {
    word != [] && forall i :: 0 <= i < |word| ==> !IsSpace(word[i])
  }

  /** The side a word names. */
  function Named(word: string): Option<G.Side> {
    if word == "left" then Some(G.Left) else if word == "right" then Some(G.Right) else None
  }

  /** The status that a comment about this word tells. */
  function Told(word: string, detail: string, faulty: bool): Option<SensorStatus> {
    if Named(word).Some? && (faulty || detail == "sensor recovered")
    then Some(SensorStatus(Named(word).value, faulty)) else None
  }

  lemma StatusOfWords(word: string, detail: string, faulty: bool)
    requires IsWord(word) && Trimmed(detail)
    ensures StatusOf([' '] + (word + [' '] + detail), faulty) == Told(word, detail, faulty)
  {
    assert SideOf(word) == Named(word);
    hide SideOf;
    hide IsSpace;
    WordsApart(word, detail);
    hide StripLeft;
    hide FirstSpace;
    hide Strip;
  }

  lemma CommentText(text: string)
    requires Trimmed(text)
    ensures var line := ['#', ' '] + text + ['\r'] + ['\n'];
            IsComment(line) && Strip(Strip(line)[1..]) == text
  {
    var body := ['#', ' '] + text;
    assert Trimmed(body);
    StripTrimmed(body);
    StripIgnoresTrailing(body, '\r');
    StripIgnoresTrailing(body + ['\r'], '\n');
    assert body[1..] == [' '] + text;
    StripIgnoresLeading(' ', text);
    StripTrimmed(text);
    hide Strip;
    assert "#" <= body;
  }

  /** The comments of the firmware are understood: a warning about a side, whatever fault it names,
      and the one information that ends it. A comment about anything else, or any other
      information, tells nothing. */
  lemma CommentsAreUnderstood(word: string, detail: string, faulty: bool)
    requires IsWord(word) && Trimmed(detail)
    ensures var text := (if faulty then "warning:" else "info:") + ([' '] + (word + [' '] + detail));
            ParseSensorStatus(['#', ' '] + text + ['\r'] + ['\n']) == Told(word, detail, faulty)
  {
    var rest := [' '] + (word + [' '] + detail);
    assert rest[|rest| - 1] == detail[|detail| - 1];
    PrefixedComment(rest, faulty);
    StatusOfWords(word, detail, faulty);
    hide StatusOf;
    hide ParseSensorStatus;
  }

  /** What follows the prefix of a comment decides. */
  lemma PrefixedComment(rest: string, faulty: bool)
    requires rest != [] && !IsSpace(rest[|rest| - 1])
    ensures ParseSensorStatus(['#', ' '] + ((if faulty then "warning:" else "info:") + rest) + ['\r'] + ['\n'])
            == StatusOf(rest, faulty)
  {
    var prefix := if faulty then "warning:" else "info:";
    var text := prefix + rest;
    assert text[0] == prefix[0] && text[|text| - 1] == rest[|rest| - 1];
    CommentText(text);
    assert text[|prefix|..] == rest && prefix <= text;
    if !faulty {
      assert text[0] == 'i' && "warning:"[0] == 'w';
    }
    hide StatusOf;
    hide Strip;
    hide IsComment;
  }

  /** A warning needs a detail behind the side. */
  lemma BareCommentsTellNothing(word: string, faulty: bool)
    requires IsWord(word)
    ensures var text := (if faulty then "warning:" else "info:") + ([' '] + word);
            ParseSensorStatus(['#', ' '] + text + ['\r'] + ['\n']) == None
  {
    var rest := [' '] + word;
    assert rest[|rest| - 1] == word[|word| - 1];
    PrefixedComment(rest, faulty);
    BareWord(word, faulty);
    hide StatusOf;
    hide ParseSensorStatus;
  }

  lemma BareWord(word: string, faulty: bool)
    requires IsWord(word)
    ensures StatusOf([' '] + word, faulty) == None
  {
    assert ([' '] + word)[1..] == word;
    assert StripLeft([' '] + word) == StripLeft(word) == word;
    var i := FirstSpace(word);
    assert i == |word| && word[i..] == [];
    assert Strip(word[i..]) == [];
  }

  /** A banner starts with the name of the firmware. */
  lemma BannersNameTheFirmware(text: string)
    requires Trimmed(text)
    ensures IsBanner(text + ['\r'] + ['\n']) <==> |text| >= 11 && text[..11] == "# iot-stm32"
  {
    StripTrimmed(text);
    StripIgnoresTrailing(text, '\r');
    StripIgnoresTrailing(text + ['\r'], '\n');
    hide Strip;
    hide IsSpace;
  }
}
