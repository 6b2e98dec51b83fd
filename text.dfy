/** The string operations the importer relies on: Java's equalsIgnoreCase and
    endsWith, the comma-separated list in the missing-header message, and the
    decimal rendering of an Integer. */
module Text {

  /** Lower-cases the ASCII letters A-Z and leaves every other character alone. */
  function FoldChar(c: char): char
  {
    if 'A' <= c <= 'Z' then (c as int + 32) as char else c
  }

  /** String.equalsIgnoreCase, with case folding restricted to ASCII letters: the
      lengths agree and the characters agree pairwise after folding. */
  predicate EqualsIgnoreCase(a: string, b: string)
    decreases |a|
  {
    |a| == |b| && (|a| == 0 || (FoldChar(a[0]) == FoldChar(b[0]) && EqualsIgnoreCase(a[1..], b[1..])))
  }

  /** Equal ignoring case means same length and the same character at every
      position once both are folded. */
  lemma {:induction false} EqualsIgnoreCaseSpec(a: string, b: string)
    ensures EqualsIgnoreCase(a, b) <==> |a| == |b| && forall i :: 0 <= i < |a| ==> FoldChar(a[i]) == FoldChar(b[i])
    decreases |a|
  {
    if |a| > 0 && |a| == |b| {
      EqualsIgnoreCaseSpec(a[1..], b[1..]);
      assert forall i :: 0 < i < |a| ==> a[1..][i - 1] == a[i] && b[1..][i - 1] == b[i];
    }
  }

  /** Two strings that differ after folding at some position differ ignoring case. */
  lemma DifferIgnoringCaseAt(a: string, b: string, i: nat)
    requires i < |a| && i < |b| && FoldChar(a[i]) != FoldChar(b[i])
    ensures !EqualsIgnoreCase(a, b)
  {
    EqualsIgnoreCaseSpec(a, b);
  }

  /** String.endsWith. */
  predicate EndsWith(s: string, suffix: string)
  {
    |suffix| <= |s| && s[|s| - |suffix|..] == suffix
  }

  /** The names separated by single commas, with no comma at either end. */
  function JoinComma(names: seq<string>): string
  {
    if |names| == 0 then ""
    else if |names| == 1 then names[0]
    else names[0] + "," + JoinComma(names[1..])
  }

  /** Every name followed by a comma, as the importer accumulates its message. */
  function CommaTerminated(names: seq<string>): string
  {
    if |names| == 0 then "" else names[0] + "," + CommaTerminated(names[1..])
  }

  lemma {:induction false} CommaTerminatedAppend(a: seq<string>, b: seq<string>)
    ensures CommaTerminated(a + b) == CommaTerminated(a) + CommaTerminated(b)
  {
    if |a| > 0 {
      assert (a + b)[0] == a[0] && (a + b)[1..] == a[1..] + b;
      CommaTerminatedAppend(a[1..], b);
    } else {
      assert a + b == b;
    }
  }

  lemma CommaTerminatedOne(name: string)
    ensures CommaTerminated([name]) == name + ","
  {
    assert [name][1..] == [];
    assert name + "," + "" == name + ",";
  }

  /** Dropping the last character of the comma-terminated list leaves the joined list. */
  lemma {:induction false} CommaTerminatedIsJoinedPlusComma(names: seq<string>)
    requires |names| > 0
    ensures CommaTerminated(names) == JoinComma(names) + ","
  {
    if |names| > 1 {
      CommaTerminatedIsJoinedPlusComma(names[1..]);
    }
  }

  /** Splits at every comma; the inverse of JoinComma on comma-free names. */
  function SplitComma(s: string): (parts: seq<string>)
    ensures |parts| >= 1
  {
    if |s| == 0 then [""]
    else
      var rest := SplitComma(s[1..]);
      if s[0] == ',' then [""] + rest else [[s[0]] + rest[0]] + rest[1..]
  }

  lemma {:induction false} SplitCommaFreePrefix(x: string, t: string)
    requires ',' !in x
    ensures SplitComma(x + t) == [x + SplitComma(t)[0]] + SplitComma(t)[1..]
  {
    if |x| > 0 {
      assert (x + t)[1..] == x[1..] + t;
      assert (x + t)[0] == x[0];
      SplitCommaFreePrefix(x[1..], t);
      assert [x[0]] + (x[1..] + SplitComma(t)[0]) == x + SplitComma(t)[0];
    } else {
      var parts := SplitComma(t);
      assert x + t == t && x + parts[0] == parts[0];
      assert [parts[0]] + parts[1..] == parts;
    }
  }

  /** Joining comma-free names and splitting the result at commas gives the names back. */
  lemma {:induction false} SplitJoinComma(names: seq<string>)
    requires |names| > 0
    requires forall i :: 0 <= i < |names| ==> ',' !in names[i]
    ensures SplitComma(JoinComma(names)) == names
  {
    if |names| == 1 {
      SplitCommaFreePrefix(names[0], "");
      assert names[0] + "" == names[0];
    } else {
      var rest := JoinComma(names[1..]);
      SplitJoinComma(names[1..]);
      assert names[0] + "," + rest == names[0] + ("," + rest);
      SplitCommaFreePrefix(names[0], "," + rest);
      assert ("," + rest)[1..] == rest;
      assert SplitComma("," + rest) == [""] + names[1..];
      assert names[0] + "" == names[0];
    }
  }

  function DigitChar(d: nat): char
    requires d < 10
  {
    ('0' as int + d) as char
  }

  /** Integer.toString for a non-negative value: its decimal digits, most significant
      first, in canonical form (a leading zero only for zero itself). */
  function NatToString(n: nat): (r: string)
    ensures |r| >= 1
    ensures forall i :: 0 <= i < |r| ==> '0' <= r[i] <= '9'
    ensures r[0] == '0' <==> n == 0
    ensures |r| > 1 ==> r[0] != '0'
  {
    if n < 10 then [DigitChar(n)] else NatToString(n / 10) + [DigitChar(n % 10)]
  }

  /** The value of a string of decimal digits. */
  function ParseNat(s: string): nat
  {
    if |s| == 0 then 0
    else
      var c := s[|s| - 1];
      ParseNat(s[..|s| - 1]) * 10 + (if '0' <= c <= '9' then c as int - '0' as int else 0)
  }

  /** Reading back the decimal rendering gives the number: distinct counts give distinct ids. */
  lemma {:induction false} ParseNatToString(n: nat)
    ensures ParseNat(NatToString(n)) == n
  {
    if n >= 10 {
      var s := NatToString(n);
      assert s[..|s| - 1] == NatToString(n / 10);
      ParseNatToString(n / 10);
    }
  }
}
