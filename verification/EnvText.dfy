/** The string functions behind list-valued fields: `strings.Split` on commas and `strings.TrimSpace`. */
module EnvText {

  /** `strings.Split(s, ",")`: always at least one part. */
  function Split(s: string): (parts: seq<string>)
    ensures |parts| >= 1
  {
    if s == [] then [[]]
    else
      var rest := Split(s[1..]);
      if s[0] == ',' then [[]] + rest else [[s[0]] + rest[0]] + rest[1..]
  }

  /** The inverse of Split. */
  function Join(parts: seq<string>): string {
    if parts == [] then []
    else if |parts| == 1 then parts[0]
    else parts[0] + [','] + Join(parts[1..])
  }

  predicate CommaFree(parts: seq<string>) {
    forall i :: 0 <= i < |parts| ==> ',' !in parts[i]
  }

  lemma JoinCons(first: string, rest: seq<string>)
    ensures Join([first] + rest) == if rest == [] then first else first + [','] + Join(rest)
  {
    assert ([first] + rest)[1..] == rest;
  }

  /** A character in front of the first part comes out in front of the text. */
  lemma JoinChar(c: char, first: string, rest: seq<string>)
    ensures Join([[c] + first] + rest) == [c] + Join([first] + rest)
  {
    JoinCons([c] + first, rest);
    JoinCons(first, rest);
    if rest != [] {
      var tail := [','] + Join(rest);
      assert [c] + first + [','] + Join(rest) == [c] + (first + [','] + Join(rest));
    }
  }

  /** The parts are free of commas and join to the text again, */
  lemma {:induction false} SplitJoins(s: string)
    ensures CommaFree(Split(s)) && Join(Split(s)) == s
  {
    if s != [] {
      var rest := Split(s[1..]);
      SplitJoins(s[1..]);
      assert s == [s[0]] + s[1..];
      if s[0] == ',' {
        JoinCons([], rest);
      } else {
        assert rest == [rest[0]] + rest[1..];
        JoinChar(s[0], rest[0], rest[1..]);
      }
    }
  }

  /** and they are the only ones that do. */
  lemma {:induction false} SplitIsUnique(first: string, rest: seq<string>)
    requires ',' !in first && CommaFree(rest)
    ensures Split(Join([first] + rest)) == [first] + rest
    decreases |rest|, |first|
  {
    JoinCons(first, rest);
    if first != [] {
      SplitIsUnique(first[1..], rest);
      JoinChar(first[0], first[1..], rest);
      assert first == [first[0]] + first[1..];
      SplitChar(first[0], first[1..], rest);
    } else if rest != [] {
      assert rest == [rest[0]] + rest[1..];
      SplitIsUnique(rest[0], rest[1..]);
      assert ([','] + Join(rest))[1..] == Join(rest);
      assert [] + [','] + Join(rest) == [','] + Join(rest);
    } else {
      assert [first] + rest == [[]];
    }
  }

  lemma SplitChar(c: char, first: string, rest: seq<string>)
    requires c != ',' && Split(Join([first] + rest)) == [first] + rest
    ensures Split([c] + Join([first] + rest)) == [[c] + first] + rest
  {
    var s := Join([first] + rest);
    assert ([c] + s)[1..] == s;
    assert ([first] + rest)[1..] == rest;
  }

  /** Drops the longest prefix of spaces. */
  function TrimLeft(space: char -> bool, s: string): string {
    if s == [] || !space(s[0]) then s else TrimLeft(space, s[1..])
  }

  /** Drops the longest suffix of spaces. */
  function TrimRight(space: char -> bool, s: string): string {
    if s == [] || !space(s[|s| - 1]) then s else TrimRight(space, s[..|s| - 1])
  }

  /** `strings.TrimSpace`, for a notion of white space. */
  function Trim(space: char -> bool, s: string): string {
    TrimRight(space, TrimLeft(space, s))
  }

  /** What is left is a suffix, behind nothing but spaces. */
  lemma {:induction false} LeftKeepsSuffix(space: char -> bool, s: string) returns (from: nat)
    ensures from <= |s| && TrimLeft(space, s) == s[from..]
    ensures forall i :: 0 <= i < from ==> space(s[i])
    ensures from < |s| ==> !space(s[from])
  {
    if s == [] || !space(s[0]) {
      from := 0;
    } else {
      var n := LeftKeepsSuffix(space, s[1..]);
      from := n + 1;
      assert s[1..][n..] == s[from..];
      forall i | 0 <= i < from ensures space(s[i]) {
        if i > 0 { assert s[i] == s[1..][i - 1]; }
      }
    }
  }

  /** What is left is a prefix, before nothing but spaces. */
  lemma {:induction false} RightKeepsPrefix(space: char -> bool, s: string) returns (to: nat)
    ensures to <= |s| && TrimRight(space, s) == s[..to]
    ensures forall i :: to <= i < |s| ==> space(s[i])
    ensures to > 0 ==> !space(s[to - 1])
  {
    if s == [] || !space(s[|s| - 1]) {
      to := |s|;
    } else {
      to := RightKeepsPrefix(space, s[..|s| - 1]);
      assert s[..|s| - 1][..to] == s[..to];
      forall i | to <= i < |s| ensures space(s[i]) {
        if i < |s| - 1 { assert s[i] == s[..|s| - 1][i]; }
      }
    }
  }

  /** For any notion of white space, trimming keeps one stretch of the text: everything around it is
      space, and it neither begins nor ends with a space. */
  lemma TrimCore(space: char -> bool, s: string) returns (from: nat, to: nat)
    ensures from <= to <= |s| && Trim(space, s) == s[from..to]
    ensures forall i :: 0 <= i < |s| && !(from <= i < to) ==> space(s[i])
    ensures from < to ==> !space(s[from]) && !space(s[to - 1])
  {
    from := LeftKeepsSuffix(space, s);
    var left := s[from..];
    var n := RightKeepsPrefix(space, left);
    to := from + n;
    assert left[..n] == s[from..to];
    forall i | to <= i < |s| ensures space(s[i]) {
      assert s[i] == left[i - from];
    }
    if n > 0 { assert s[to - 1] == left[n - 1]; }
  }

  /** The trimmed parts that are not blank, in order. */
  function Trimmed(space: char -> bool, parts: seq<string>): seq<string> {
    if parts == [] then []
    else
      var part := Trim(space, parts[0]);
      (if part == [] then [] else [part]) + Trimmed(space, parts[1..])
  }

  /** The segments of a list of parts are those of its pieces, in order, */
  lemma {:induction false} TrimmedConcat(space: char -> bool, a: seq<string>, b: seq<string>)
    ensures Trimmed(space, a + b) == Trimmed(space, a) + Trimmed(space, b)
  {
    if a == [] {
      assert a + b == b;
    } else {
      assert (a + b)[1..] == a[1..] + b;
      TrimmedConcat(space, a[1..], b);
    }
  }

  /** and a single part gives the stretch between its outer spaces, or nothing if it is all space. */
  lemma TrimmedPart(space: char -> bool, part: string) returns (from: nat, to: nat)
    ensures from <= to <= |part|
    ensures forall i :: 0 <= i < |part| && !(from <= i < to) ==> space(part[i])
    ensures from < to ==> !space(part[from]) && !space(part[to - 1])
    ensures (forall i :: 0 <= i < |part| ==> space(part[i])) <==> from == to
    ensures Trimmed(space, [part]) == if from == to then [] else [part[from..to]]
  {
    from, to := TrimCore(space, part);
    assert [part][1..] == [];
    if from < to { assert !space(part[from]); }
  }
}
