/** The line protocol of the sensor board: measurement lines, sensor status comments and the
    conversion to REP 117 ranges. Text is ASCII, decoded with replacement.
 */
module Stm32Protocol {
  import opened Numbers
  import opened PyText
  import G = ObstacleGuard
  import B = BridgeSpec

  /** What Python's float() makes of a text. */
  datatype Float = Invalid | NonFinite | Number(x: real)

  /** Distances of None are no echo. */
  datatype Reading = Reading(leftCm: Option<real>, rightCm: Option<real>, volts: Option<real>)

  /** field.partition(":") with both parts stripped; None is a field parse_line() refuses. */
  function KeyValue(field: string): Option<(string, string)> {
    var i := IndexOf(field, ':');
    if i == |field| || Strip(field[..i]) == [] then None
    else Some((Strip(field[..i]), Strip(field[i + 1..])))
  }

  /** The fields as a dictionary; None if one is malformed or a key comes twice. */
  function FieldMap(fields: seq<string>): Option<map<string, string>> {
    if fields == [] then Some(map[])
    else
      var before := FieldMap(fields[..|fields| - 1]);
      var kv := KeyValue(fields[|fields| - 1]);
      if before.None? || kv.None? || kv.value.0 in before.value then None
      else Some(before.value[kv.value.0 := kv.value.1])
  }

  predicate AllDigits(s: string) {
    forall i :: 0 <= i < |s| ==> '0' <= s[i] <= '9'
  }

  function ValueOf(digits: string): nat
    requires AllDigits(digits)
  {
    if digits == [] then 0
    else 10 * ValueOf(digits[..|digits| - 1]) + (digits[|digits| - 1] - '0') as nat
  }

  function Power10(n: nat): (p: nat)
    ensures p >= 1
  {
    if n == 0 then 1 else 10 * Power10(n - 1)
  }

  /** n units of 1/p. */
  function Per(n: int, p: nat): real
    requires p > 0
  {
    n as real / p as real
  }

  function Signed(negative: bool, whole: string, fraction: string): real
    requires AllDigits(whole) && AllDigits(fraction)
  {
    var magnitude := ValueOf(whole) as real + Per(ValueOf(fraction), Power10(|fraction|));
    if negative then -magnitude else magnitude
  }

  /** A fixed-point decimal is read exactly. Python's other notations (exponents, "inf",
      underscores ...) are up to `other`. */
  function ParseFloat(text: string, other: string -> Float): Float {
    var negative := text != [] && text[0] == '-';
    var digits := if negative || (text != [] && text[0] == '+') then text[1..] else text;
    var dot := IndexOf(digits, '.');
    var fraction := if dot < |digits| then digits[dot + 1..] else "0";
    if dot == 0 || fraction == [] || !AllDigits(digits[..dot]) || !AllDigits(fraction)
    then other(text)
    else Number(Signed(negative, digits[..dot], fraction))
  }

  function DistanceOf(cm: Float): Option<real> {
    if cm.Number? && cm.x > 0.0 then Some(cm.x) else None
  }

  /** What the fields mean; None where the original refuses the line. */
  function ReadingOf(fields: map<string, string>, other: string -> Float): Option<Reading> {
    if "D1" !in fields || "D2" !in fields then None
    else
      var left, right := ParseFloat(fields["D1"], other), ParseFloat(fields["D2"], other);
      if !left.Number? || !right.Number? then None
      else if "V" !in fields then Some(Reading(DistanceOf(left), DistanceOf(right), None))
      else
        var volts := ParseFloat(fields["V"], other);
        if !volts.Number? then None
        else Some(Reading(DistanceOf(left), DistanceOf(right), Some(volts.x)))
  }

  predicate IsComment(line: string) {
    "#" <= Strip(line)
  }

  function ParseLine(line: string, other: string -> Float): Option<Reading> {
    if Strip(line) == [] || IsComment(line) then None
    else
      var fields := FieldMap(SplitCommas(Strip(line)));
      if fields.None? then None else ReadingOf(fields.value, other)
  }

  /** The loop of parse_line(), which fills a dictionary field by field. */
  method ParseFields(line: string, other: string -> Float) returns (reading: Option<Reading>)
    ensures reading == ParseLine(line, other)
  {
    hide SplitCommas;
    hide Strip;
    hide ReadingOf;
    var text := Strip(line);
    if text == [] || "#" <= text {
      return None;
    }
    var all := SplitCommas(text);
    var fields: map<string, string> := map[];
    for i := 0 to |all|
      invariant FieldMap(all[..i]) == Some(fields)
    {
      assert all[..i + 1][..i] == all[..i];
      var colon := IndexOf(all[i], ':');
      var key := Strip(all[i][..colon]);
      if colon == |all[i]| || key == [] || key in fields {
        RefusedStaysRefused(all, i + 1);
        return None;
      }
      fields := fields[key := Strip(all[i][colon + 1..])];
    }
    assert all[..|all|] == all;
    reading := ReadingOf(fields, other);
  }

  lemma {:induction false} RefusedStaysRefused(fields: seq<string>, i: nat)
    requires i <= |fields| && FieldMap(fields[..i]).None?
    ensures FieldMap(fields).None?
    decreases |fields| - i
  {
    if i == |fields| {
      assert fields[..i] == fields;
    } else {
      assert fields[..i + 1][..i] == fields[..i];
      RefusedStaysRefused(fields, i + 1);
    }
  }

  // Sensor status comments ------------------------------------------------------------

  const RECOVERED := "sensor recovered"

  datatype SensorStatus = SensorStatus(side: G.Side, faulty: bool)

  function SideOf(word: string): Option<G.Side> {
    if word == "left" then Some(G.Left) else if word == "right" then Some(G.Right) else None
  }

  /** The two words after a prefix: the side, and everything else. */
  function StatusOf(rest: string, faulty: bool): Option<SensorStatus> {
    var words := StripLeft(rest);
    var i := FirstSpace(words);
    var side, detail := SideOf(words[..i]), Strip(words[i..]);
    if detail == [] || side.None? || (!faulty && detail != RECOVERED) then None
    else Some(SensorStatus(side.value, faulty))
  }

  function ParseSensorStatus(line: string): Option<SensorStatus> {
    if !IsComment(line) then None
    else
      var text := Strip(Strip(line)[1..]);
      if "warning:" <= text then StatusOf(text[8..], true)
      else if "info:" <= text then StatusOf(text[5..], false)
      else None
  }

  predicate IsBanner(line: string) {
    "# iot-stm32" <= Strip(line)
  }

  /** The node strips a comment before it hands it on, which the parsers do again. */
  lemma StrippingTwice(line: string)
    ensures Strip(Strip(line)) == Strip(line)
    ensures IsComment(Strip(line)) == IsComment(line) && IsBanner(Strip(line)) == IsBanner(line)
    ensures ParseSensorStatus(Strip(line)) == ParseSensorStatus(line)
  {
    StripIsTrimmed(line);
    if Strip(line) != [] {
      StripTrimmed(Strip(line));
    }
  }

  function DistanceToRange(cm: Option<real>, minRange: real, maxRange: real, faulty: bool): B.RangeValue {
    if faulty then B.NaN
    else if cm.None? || cm.value / 100.0 > maxRange then B.PositiveInfinity
    else B.Value(Max(cm.value / 100.0, minRange))
  }

  // What a line means ------------------------------------------------------------------

  /** Some field gives `key` the value `value`. */
  ghost predicate Given(fields: seq<string>, key: string, value: string) {
    exists i :: 0 <= i < |fields| && KeyValue(fields[i]) == Some((key, value))
  }

  predicate SameKey(f: string, g: string) {
    KeyValue(f).Some? && KeyValue(g).Some? && KeyValue(f).value.0 == KeyValue(g).value.0
  }

  /** Some field of `fields` gives the key of f. */
  ghost predicate GivesKeyOf(fields: seq<string>, f: string) {
    exists i :: 0 <= i < |fields| && SameKey(fields[i], f)
  }

  /** Two fields give the same key. */
  ghost predicate Repeats(fields: seq<string>) {
    exists i, k :: 0 <= i < k < |fields| && SameKey(fields[i], fields[k])
  }

  /** Every field is well formed and no key comes twice. */
  ghost predicate WellFormed(fields: seq<string>) {
    (forall i :: 0 <= i < |fields| ==> KeyValue(fields[i]).Some?) && !Repeats(fields)
  }

  /** The dictionary holds exactly what the fields give. */
  ghost predicate Holds(fields: seq<string>, m: map<string, string>) {
    forall key, value :: key in m && m[key] == value <==> Given(fields, key, value)
  }

  lemma GivenExtends(before: seq<string>, last: string, key: string, value: string)
    ensures Given(before + [last], key, value) <==>
            Given(before, key, value) || KeyValue(last) == Some((key, value))
  {
    var all := before + [last];
    assert all[|before|] == last;
    hide KeyValue;
    if Given(before, key, value) {
      var i :| 0 <= i < |before| && KeyValue(before[i]) == Some((key, value));
      assert all[i] == before[i];
    }
    if Given(all, key, value) {
      var i :| 0 <= i < |all| && KeyValue(all[i]) == Some((key, value));
      assert i < |before| ==> all[i] == before[i];
    }
  }

  lemma RepeatsExtends(before: seq<string>, last: string)
    ensures Repeats(before + [last]) <==> Repeats(before) || GivesKeyOf(before, last)
  {
    hide SameKey;
    var all := before + [last];
    assert all[|before|] == last;
    if Repeats(before) {
      var i, k :| 0 <= i < k < |before| && SameKey(before[i], before[k]);
      assert all[i] == before[i] && all[k] == before[k];
    }
    if GivesKeyOf(before, last) {
      var i :| 0 <= i < |before| && SameKey(before[i], last);
      assert all[i] == before[i];
    }
    if Repeats(all) {
      var i, k :| 0 <= i < k < |all| && SameKey(all[i], all[k]);
      assert all[i] == before[i] && (k < |before| ==> all[k] == before[k]);
    }
  }

  lemma KeyIsGiven(fields: seq<string>, m: map<string, string>, f: string)
    requires Holds(fields, m) && KeyValue(f).Some?
    ensures KeyValue(f).value.0 in m <==> GivesKeyOf(fields, f)
  {
    hide KeyValue;
    var key := KeyValue(f).value.0;
    if key in m {
      assert Given(fields, key, m[key]);
      var i :| 0 <= i < |fields| && KeyValue(fields[i]) == Some((key, m[key]));
      assert SameKey(fields[i], f);
    }
    if GivesKeyOf(fields, f) {
      var i :| 0 <= i < |fields| && SameKey(fields[i], f);
      assert Given(fields, key, KeyValue(fields[i]).value.1);
    }
  }

  lemma ExtendedHolds(before: seq<string>, m: map<string, string>, last: string)
    requires Holds(before, m) && KeyValue(last).Some? && KeyValue(last).value.0 !in m
    ensures Holds(before + [last], m[KeyValue(last).value.0 := KeyValue(last).value.1])
  {
    hide KeyValue;
    var (k, v) := KeyValue(last).value;
    forall key, value
      ensures key in m[k := v] && m[k := v][key] == value <==> Given(before + [last], key, value)
    {
      GivenExtends(before, last, key, value);
      assert key in m && m[key] == value <==> Given(before, key, value);
      if key == k {
        assert !Given(before, k, value);
      }
    }
  }

  /** The dictionary exists exactly when every field is well formed and no key comes twice;
      it then holds exactly what the fields give. */
  lemma {:induction false} FieldMapMeaning(fields: seq<string>)
    ensures FieldMap(fields).Some? <==> WellFormed(fields)
    ensures FieldMap(fields).Some? ==> Holds(fields, FieldMap(fields).value)
  {
    hide KeyValue;
    if fields != [] {
      var n := |fields| - 1;
      var before, last := fields[..n], fields[n];
      FieldMapMeaning(before);
      assert fields == before + [last];
      RepeatsExtends(before, last);
      assert (forall i :: 0 <= i < |fields| ==> KeyValue(fields[i]).Some?) <==>
             (forall i :: 0 <= i < n ==> KeyValue(before[i]).Some?) && KeyValue(last).Some?;
      if FieldMap(before).Some? && KeyValue(last).Some? {
        var m := FieldMap(before).value;
        hide Repeats;
        hide Holds;
        hide GivesKeyOf;
        KeyIsGiven(before, m, last);
        if KeyValue(last).value.0 !in m {
          ExtendedHolds(before, m, last);
        }
      }
    }
  }

  lemma OneMoreField(before: seq<string>, last: string)
    requires FieldMap(before).Some? && KeyValue(last).Some?
    requires KeyValue(last).value.0 !in FieldMap(before).value
    ensures FieldMap(before + [last])
            == Some(FieldMap(before).value[KeyValue(last).value.0 := KeyValue(last).value.1])
  {
    assert (before + [last])[..|before|] == before;
  }

  // Stripping changes no field -----------------------------------------------------------

  lemma KeyValueIgnoresSpace(field: string, c: char)
    requires IsSpace(c)
    ensures KeyValue([c] + field) == KeyValue(field)
    ensures KeyValue(field + [c]) == KeyValue(field)
  {
    var i := IndexOf(field, ':');
    IndexShifts(c, field, ':');
    IndexOfAppended(field, c, ':');
    var front, back := [c] + field, field + [c];
    if i < |field| {
      assert front[..i + 1] == [c] + field[..i] && front[i + 2..] == field[i + 1..];
      StripIgnoresLeading(c, field[..i]);
      assert back[..i] == field[..i] && back[i + 1..] == field[i + 1..] + [c];
      StripIgnoresTrailing(field[i + 1..], c);
    }
  }

  /** What the fields of a line are, as far as parse_line() can tell. */
  function Parts(fields: seq<string>): seq<Option<(string, string)>> {
    seq(|fields|, i requires 0 <= i < |fields| => KeyValue(fields[i]))
  }

  lemma PartsOfCons(f: string, fields: seq<string>)
    ensures Parts([f] + fields) == [KeyValue(f)] + Parts(fields)
  {
    hide KeyValue;
  }

  lemma SplitIgnoresLeading(c: char, s: string)
    requires IsSpace(c)
    ensures Parts(SplitCommas([c] + s)) == Parts(SplitCommas(s))
  {
    FirstComma(s);
    var i := IndexOf(s, ',');
    var f := s[..i];
    KeyValueIgnoresSpace(f, c);
    hide KeyValue;
    hide SplitCommas;
    if i < |s| {
      var rest, g := s[i + 1..], [c] + f;
      hide IndexOf;
      SplitHere(f, rest);
      SplitHere(g, rest);
      PartsOfCons(f, SplitCommas(rest));
      PartsOfCons(g, SplitCommas(rest));
      Associates([c], f, [','] + rest);
      Associates(f, [','], rest);
      Associates(g, [','], rest);
    } else {
      assert f == s;
      SplitHere(s, "");
      SplitHere([c] + s, "");
    }
  }

  lemma {:induction false} SplitIgnoresTrailing(s: string, c: char)
    requires IsSpace(c)
    ensures Parts(SplitCommas(s + [c])) == Parts(SplitCommas(s))
    decreases |s|
  {
    FirstComma(s);
    var i := IndexOf(s, ',');
    var f := s[..i];
    hide KeyValue;
    hide SplitCommas;
    if i < |s| {
      var rest := s[i + 1..];
      assert s + [c] == f + [','] + (rest + [c]);
      SplitHere(f, rest);
      SplitHere(f, rest + [c]);
      SplitIgnoresTrailing(rest, c);
      PartsOfCons(f, SplitCommas(rest));
      PartsOfCons(f, SplitCommas(rest + [c]));
    } else {
      assert f == s;
      KeyValueIgnoresSpace(s, c);
      SplitHere(s, "");
      SplitHere(s + [c], "");
    }
  }

  lemma {:induction false} SplitIgnoresStripLeft(s: string)
    ensures Parts(SplitCommas(StripLeft(s))) == Parts(SplitCommas(s))
  {
    if s != [] && IsSpace(s[0]) {
      SplitIgnoresStripLeft(s[1..]);
      assert s == [s[0]] + s[1..];
      SplitIgnoresLeading(s[0], s[1..]);
    }
  }

  lemma {:induction false} SplitIgnoresStripRight(s: string)
    ensures Parts(SplitCommas(StripRight(s))) == Parts(SplitCommas(s))
  {
    if s != [] && IsSpace(s[|s| - 1]) {
      var n := |s| - 1;
      SplitIgnoresStripRight(s[..n]);
      assert s == s[..n] + [s[n]];
      SplitIgnoresTrailing(s[..n], s[n]);
    }
  }

  lemma {:induction false} SamePartsSameMap(a: seq<string>, b: seq<string>)
    requires Parts(a) == Parts(b)
    ensures FieldMap(a) == FieldMap(b)
  {
    hide KeyValue;
    assert |Parts(a)| == |a| && |Parts(b)| == |b|;
    if a != [] {
      var n := |a| - 1;
      assert Parts(a)[n] == Parts(b)[n];
      assert Parts(a[..n]) == Parts(a)[..n] && Parts(b[..n]) == Parts(b)[..n];
      SamePartsSameMap(a[..n], b[..n]);
    }
  }

  /** A line that is not a comment means what its comma-separated fields mean; white space
      around the line, its keys and its values is nothing. */
  lemma ParseLineMeaning(line: string, other: string -> Float)
    ensures ParseLine(line, other) ==
            var fields := FieldMap(SplitCommas(line));
            if IsComment(line) || fields.None? then None else ReadingOf(fields.value, other)
  {
    SplitIgnoresStripLeft(line);
    SplitIgnoresStripRight(StripLeft(line));
    SamePartsSameMap(SplitCommas(Strip(line)), SplitCommas(line));
    if Strip(line) == [] {
      var empty: string := "";
      assert IndexOf(empty, ',') == 0 && SplitCommas(empty) == [empty];
      assert KeyValue(empty).None? && [empty][..0] == [];
      assert FieldMap([empty]).None?;
    }
  }

  /** A field is a key and a value around its first colon, both without white space at the ends;
      the key is not empty. */
  lemma KeyValueMeaning(field: string, key: string, value: string)
    ensures KeyValue(field) == Some((key, value)) <==>
            key != [] && exists a, b :: IsField(field, a, b) && key == Strip(a) && value == Strip(b)
  {
    var i := IndexOf(field, ':');
    if KeyValue(field) == Some((key, value)) {
      assert IsField(field, field[..i], field[i + 1..]) by {
        SplitAround(field, i);
      }
    }
    if a, b :| IsField(field, a, b) && key == Strip(a) && value == Strip(b) {
      IndexPast(a, b, ':');
      assert field[..i] == a && field[i + 1..] == b;
    }
  }

  ghost predicate IsField(field: string, a: string, b: string) {
    ':' !in a && field == a + [':'] + b
  }

  /** A line gives a reading exactly if it is no comment, its fields are well formed, both distances
      are given as finite numbers, and so is the voltage if there is one. A distance counts if it is
      positive. */
  lemma ReadingNeeds(line: string, other: string -> Float)
    ensures var fields, r := FieldMap(SplitCommas(line)), ParseLine(line, other);
            && (r.Some? <==>
                  && !IsComment(line) && fields.Some?
                  && Gives(fields.value, "D1", other) && Gives(fields.value, "D2", other)
                  && ("V" in fields.value ==> Gives(fields.value, "V", other)))
            && (r.Some? ==>
                  var left, right := ParseFloat(fields.value["D1"], other).x, ParseFloat(fields.value["D2"], other).x;
                  && r.value.leftCm == (if left > 0.0 then Some(left) else None)
                  && r.value.rightCm == (if right > 0.0 then Some(right) else None)
                  && r.value.volts == if "V" in fields.value then Some(ParseFloat(fields.value["V"], other).x)
                                      else None)
  {
    ParseLineMeaning(line, other);
    hide ParseLine;
    hide FieldMap;
    hide SplitCommas;
    hide ParseFloat;
  }

  predicate Gives(fields: map<string, string>, key: string, other: string -> Float) {
    key in fields && ParseFloat(fields[key], other).Number?
  }

  // Order and unknown fields ---------------------------------------------------------------

  lemma {:induction false} TwiceCounts(s: seq<string>, i: nat, k: nat)
    requires i < k < |s| && s[i] == s[k]
    ensures multiset(s)[s[i]] >= 2
  {
    assert s == s[..k] + [s[k]] + s[k + 1..];
    assert s[i] in s[..k];
  }

  lemma {:induction false} CountsTwice(s: seq<string>, f: string)
    requires multiset(s)[f] >= 2
    ensures exists i, k :: 0 <= i < k < |s| && s[i] == s[k] == f
  {
    var n := |s| - 1;
    assert s == s[..n] + [s[n]];
    if s[n] == f {
      assert multiset(s[..n])[f] >= 1;
      var i :| 0 <= i < n && s[..n][i] == f;
      assert s[i] == s[n] == f;
    } else {
      CountsTwice(s[..n], f);
      var i, k :| 0 <= i < k < n && s[..n][i] == s[..n][k] == f;
      assert s[i] == s[k] == f;
    }
  }

  lemma ReorderingRepeats(a: seq<string>, b: seq<string>)
    requires multiset(a) == multiset(b) && Repeats(a)
    ensures Repeats(b)
  {
    hide KeyValue;
    var i, k :| 0 <= i < k < |a| && SameKey(a[i], a[k]);
    if a[i] == a[k] {
      TwiceCounts(a, i, k);
      CountsTwice(b, a[i]);
      var p, q :| 0 <= p < q < |b| && b[p] == b[q] == a[i];
      assert SameKey(b[p], b[q]);
    } else {
      assert a[i] in multiset(b) && a[k] in multiset(b);
      var p :| 0 <= p < |b| && b[p] == a[i];
      var q :| 0 <= q < |b| && b[q] == a[k];
      assert SameKey(b[p], b[q]) && SameKey(b[q], b[p]) && p != q;
    }
  }

  lemma ReorderingKeepsFields(a: seq<string>, b: seq<string>, i: nat) returns (k: nat)
    requires multiset(a) == multiset(b) && i < |a|
    ensures k < |b| && b[k] == a[i]
  {
    assert a[i] in multiset(b);
    k :| 0 <= k < |b| && b[k] == a[i];
  }

  lemma ReorderingGives(a: seq<string>, b: seq<string>, key: string, value: string)
    requires multiset(a) == multiset(b) && Given(a, key, value)
    ensures Given(b, key, value)
  {
    hide KeyValue;
    var i :| 0 <= i < |a| && KeyValue(a[i]) == Some((key, value));
    var k := ReorderingKeepsFields(a, b, i);
  }

  lemma ReorderingIsWellFormed(a: seq<string>, b: seq<string>)
    requires multiset(a) == multiset(b) && WellFormed(a)
    ensures WellFormed(b)
  {
    hide KeyValue;
    if Repeats(b) {
      ReorderingRepeats(b, a);
    }
    forall k: nat | k < |b| ensures KeyValue(b[k]).Some? {
      var i := ReorderingKeepsFields(b, a, k);
    }
  }

  lemma SameHoldings(a: seq<string>, m: map<string, string>, b: seq<string>, n: map<string, string>)
    requires multiset(a) == multiset(b) && Holds(a, m) && Holds(b, n)
    ensures m == n
  {
    forall key | key in m ensures key in n && n[key] == m[key] {
      assert Given(a, key, m[key]);
      ReorderingGives(a, b, key, m[key]);
    }
    forall key | key in n ensures key in m {
      assert Given(b, key, n[key]);
      ReorderingGives(b, a, key, n[key]);
    }
  }

  lemma ReorderedFields(a: seq<string>, b: seq<string>)
    requires multiset(a) == multiset(b)
    ensures FieldMap(a) == FieldMap(b)
  {
    hide KeyValue;
    FieldMapMeaning(a);
    FieldMapMeaning(b);
    hide FieldMap;
    hide Holds;
    if WellFormed(a) {
      ReorderingIsWellFormed(a, b);
    }
    if WellFormed(b) {
      ReorderingIsWellFormed(b, a);
    }
    hide WellFormed;
    if FieldMap(a).Some? {
      SameHoldings(a, FieldMap(a).value, b, FieldMap(b).value);
    }
  }

  /** The order of the fields does not matter, as long as no reordering turns the line into a
      comment: a field that starts with "#" is harmless anywhere but in front. */
  lemma FieldOrderIsIrrelevant(a: seq<string>, b: seq<string>, other: string -> Float)
    requires a != [] && b != [] && multiset(a) == multiset(b) && NoComma(a) && NoComma(b)
    requires IsComment(Join(a)) == IsComment(Join(b))
    ensures ParseLine(Join(a), other) == ParseLine(Join(b), other)
  {
    ParseLineMeaning(Join(a), other);
    ParseLineMeaning(Join(b), other);
    SplitOfJoin(a);
    SplitOfJoin(b);
    ReorderedFields(a, b);
  }

  /** A further field with a new, unknown key changes nothing. */
  lemma UnknownFieldIsIgnored(fields: seq<string>, extra: string, other: string -> Float)
    requires fields != [] && NoComma(fields) && ',' !in extra
    requires KeyValue(extra).Some? && KeyValue(extra).value.0 !in ["D1", "D2", "V"]
    requires forall i :: 0 <= i < |fields| ==> !SameKey(fields[i], extra)
    requires IsComment(Join(fields)) == IsComment(Join(fields + [extra]))
    ensures ParseLine(Join(fields + [extra]), other) == ParseLine(Join(fields), other)
  {
    var more := fields + [extra];
    SplitOfJoin(fields);
    SplitOfJoin(more);
    ParseLineMeaning(Join(fields), other);
    ParseLineMeaning(Join(more), other);
    hide ParseLine;
    hide SplitCommas;
    hide IsComment;
    hide KeyValue;
    hide ReadingOf;
    hide Join;
    if FieldMap(fields).Some? {
      OneMoreKey(fields, extra);
      OneMoreField(fields, extra);
      ReadingIgnores(FieldMap(fields).value, KeyValue(extra).value.0, KeyValue(extra).value.1, other);
    } else {
      assert more[..|fields|] == fields;
    }
  }

  lemma OneMoreKey(fields: seq<string>, extra: string)
    requires FieldMap(fields).Some? && KeyValue(extra).Some?
    requires forall i :: 0 <= i < |fields| ==> !SameKey(fields[i], extra)
    ensures KeyValue(extra).value.0 !in FieldMap(fields).value
  {
    hide KeyValue;
    hide FieldMap;
    FieldMapMeaning(fields);
    KeyIsGiven(fields, FieldMap(fields).value, extra);
  }

  lemma ReadingIgnores(m: map<string, string>, key: string, value: string, other: string -> Float)
    requires key !in ["D1", "D2", "V"]
    ensures ReadingOf(m[key := value], other) == ReadingOf(m, other)
  {
    hide ParseFloat;
  }
}
