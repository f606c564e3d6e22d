/** Python's strings, as far as the line protocol needs them: strip(), split(",") and find(). */
module PyText {
  /** The ASCII characters str.strip() and str.split() treat as white space. */
  predicate IsSpace(c: char) {
    9 as char <= c <= 13 as char || 28 as char <= c <= 32 as char
  }

  function StripLeft(s: string): string {
    if s != [] && IsSpace(s[0]) then StripLeft(s[1..]) else s
  }

  function StripRight(s: string): string {
    if s != [] && IsSpace(s[|s| - 1]) then StripRight(s[..|s| - 1]) else s
  }

  function Strip(s: string): string {
    StripRight(StripLeft(s))
  }

  function IndexOf(s: string, c: char): (i: nat)
    ensures i <= |s| && (i < |s| ==> s[i] == c)
    ensures forall k :: 0 <= k < i ==> s[k] != c
  {
    if s == [] || s[0] == c then 0 else 1 + IndexOf(s[1..], c)
  }

  /** line.split(",") */
  function SplitCommas(s: string): (fields: seq<string>)
    ensures fields != []
    decreases |s|
  {
    var i := IndexOf(s, ',');
    if i == |s| then [s] else [s[..i]] + SplitCommas(s[i + 1..])
  }

  function Join(fields: seq<string>): string
    requires fields != []
  {
    if |fields| == 1 then fields[0] else fields[0] + "," + Join(fields[1..])
  }

  lemma {:induction false} StripIgnoresLeading(c: char, s: string)
    requires IsSpace(c)
    ensures Strip([c] + s) == Strip(s)
  {
    assert ([c] + s)[1..] == s;
  }

  lemma {:induction false} StripRightOfLeft(s: string, c: char)
    requires IsSpace(c)
    ensures StripRight(s + [c]) == StripRight(s)
  {
    assert (s + [c])[..|s|] == s;
  }

  lemma {:induction false} StripIgnoresTrailing(s: string, c: char)
    requires IsSpace(c)
    ensures Strip(s + [c]) == Strip(s)
  {
    if s == [] {
      assert [] + [c] == [c] && [c][1..] == [];
    } else if IsSpace(s[0]) {
      assert (s + [c])[1..] == s[1..] + [c];
      StripIgnoresTrailing(s[1..], c);
    } else {
      StripRightOfLeft(s, c);
    }
  }

  lemma {:induction false} StartIsKept(s: string)
    requires s != [] && !IsSpace(s[0])
    ensures StripRight(s) != [] && StripRight(s)[0] == s[0]
  {
    if IsSpace(s[|s| - 1]) {
      StartIsKept(s[..|s| - 1]);
    }
  }

  predicate Trimmed(s: string) {
    s != [] && !IsSpace(s[0]) && !IsSpace(s[|s| - 1])
  }

  lemma StripTrimmed(s: string)
    requires Trimmed(s)
    ensures Strip(s) == s && StripLeft(s) == s
  {
  }

  lemma {:induction false} StripIsTrimmed(s: string)
    ensures Strip(s) == [] || Trimmed(Strip(s))
  {
    LeftIsStripped(s);
    if StripLeft(s) != [] {
      StartIsKept(StripLeft(s));
      RightIsStripped(StripLeft(s));
    }
  }

  lemma {:induction false} LeftIsStripped(s: string)
    ensures StripLeft(s) == [] || !IsSpace(StripLeft(s)[0])
  {
    if s != [] && IsSpace(s[0]) {
      LeftIsStripped(s[1..]);
    }
  }

  lemma {:induction false} RightIsStripped(s: string)
    ensures StripRight(s) == [] || !IsSpace(StripRight(s)[|StripRight(s)| - 1])
  {
    if s != [] && IsSpace(s[|s| - 1]) {
      RightIsStripped(s[..|s| - 1]);
    }
  }

  lemma {:induction false} IndexShifts(c: char, s: string, d: char)
    requires c != d
    ensures IndexOf([c] + s, d) == 1 + IndexOf(s, d)
  {
    assert ([c] + s)[1..] == s;
  }

  lemma {:induction false} IndexOfAppended(s: string, c: char, d: char)
    requires c != d
    ensures IndexOf(s + [c], d) == if IndexOf(s, d) < |s| then IndexOf(s, d) else |s| + 1
  {
    if s == [] {
      assert [] + [c] == [c] && [c][1..] == [];
    } else if s[0] != d {
      assert (s + [c])[1..] == s[1..] + [c];
      IndexOfAppended(s[1..], c, d);
    }
  }

  lemma {:induction false} IndexPast(f: string, rest: string, c: char)
    requires c !in f
    ensures IndexOf(f, c) == |f| && IndexOf(f + [c] + rest, c) == |f|
  {
    if f == [] {
      assert f + [c] + rest == [c] + rest;
    } else {
      assert (f + [c] + rest)[1..] == f[1..] + [c] + rest;
      IndexPast(f[1..], rest, c);
    }
  }

  lemma SplitAround(s: string, i: nat)
    requires i < |s|
    ensures s == s[..i] + [s[i]] + s[i + 1..]
  {
  }

  lemma Associates(a: string, b: string, c: string)
    ensures a + (b + c) == a + b + c
  {
  }

  lemma SplitHere(f: string, rest: string)
    requires ',' !in f
    ensures SplitCommas(f) == [f]
    ensures SplitCommas(f + [','] + rest) == [f] + SplitCommas(rest)
  {
    IndexPast(f, rest, ',');
    var s := f + [','] + rest;
    assert s[..|f|] == f && s[|f| + 1..] == rest;
  }

  /** A text up to its first comma, and the rest. */
  lemma FirstComma(s: string)
    ensures var i := IndexOf(s, ','); ',' !in s[..i] && (i < |s| ==> s == s[..i] + [','] + s[i + 1..])
  {
    hide IndexOf;
    var i := IndexOf(s, ',');
    if i < |s| {
      SplitAround(s, i);
    }
  }

  predicate NoComma(fields: seq<string>) {
    forall i :: 0 <= i < |fields| ==> ',' !in fields[i]
  }

  lemma {:induction false} SplitOfJoin(fields: seq<string>)
    requires fields != [] && NoComma(fields)
    ensures SplitCommas(Join(fields)) == fields
  {
    hide SplitCommas;
    if |fields| == 1 {
      SplitHere(fields[0], "");
      assert fields == [fields[0]];
    } else {
      var rest := Join(fields[1..]);
      assert Join(fields) == fields[0] + [','] + rest;
      hide Join;
      SplitHere(fields[0], rest);
      SplitOfJoin(fields[1..]);
    }
  }

  function FirstSpace(s: string): (i: nat)
    ensures i <= |s| && (i < |s| ==> IsSpace(s[i]))
    ensures forall k :: 0 <= k < i ==> !IsSpace(s[k])
  {
    if s == [] || IsSpace(s[0]) then 0 else 1 + FirstSpace(s[1..])
  }

  lemma {:induction false} FirstSpaceIs(word: string, rest: string)
    requires forall i :: 0 <= i < |word| ==> !IsSpace(word[i])
    ensures FirstSpace(word + [' '] + rest) == |word|
  {
    var s := word + [' '] + rest;
    if word == [] {
      assert s[0] == ' ';
    } else {
      assert s[1..] == word[1..] + [' '] + rest && s[0] == word[0];
      FirstSpaceIs(word[1..], rest);
    }
  }
}
