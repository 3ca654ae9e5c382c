/** The string operations of Python's `str` that the validators rely on:
    `lower`, `strip`, `split` with an explicit separator and `join`.
    Case mapping and whitespace are the ASCII ones. */
module Text {

  /** `str.lower` on one character, restricted to ASCII letters. */
  function LowerChar(c: char): char {
    if 'A' <= c <= 'Z' then (c as int + 32) as char else c
  }

  /** `str.lower` (ASCII letters only). */
  function Lower(s: string): string {
    seq(|s|, i requires 0 <= i < |s| => LowerChar(s[i]))
  }

  /** Lowering keeps the length, leaves no upper-case letter, keeps every
      other character and maps each upper-case letter to its lower-case one. */
  lemma LowerSpec(s: string)
    ensures |Lower(s)| == |s|
    ensures forall i :: 0 <= i < |s| ==> !('A' <= Lower(s)[i] <= 'Z')
    ensures forall i :: 0 <= i < |s| && !('A' <= s[i] <= 'Z') ==> Lower(s)[i] == s[i]
    ensures forall i :: 0 <= i < |s| && 'A' <= s[i] <= 'Z' ==> Lower(s)[i] as int == s[i] as int + 32
  {
  }

  /** The characters `str.strip()` removes that lie in the ASCII range:
      space, \t \n \v \f \r and the separators \x1c to \x1f. */
  predicate IsSpace(c: char) {
    c == ' ' || 9 <= c as int <= 13 || 28 <= c as int <= 31
  }

  /** The index of the first non-whitespace character at or after `i`, or
      `|s|` when there is none. */
  function StripStart(s: string, i: nat): (a: nat)
    requires i <= |s|
    ensures i <= a <= |s|
    ensures forall k :: i <= k < a ==> IsSpace(s[k])
    ensures a == |s| || !IsSpace(s[a])
    decreases |s| - i
  {
    if i < |s| && IsSpace(s[i]) then StripStart(s, i + 1) else i
  }

  /** One past the last non-whitespace character before `j` and at or after
      `a`, or `a` when there is none. */
  function StripEnd(s: string, a: nat, j: nat): (b: nat)
    requires a <= j <= |s|
    ensures a <= b <= j
    ensures forall k :: b <= k < j ==> IsSpace(s[k])
    ensures b == a || !IsSpace(s[b - 1])
  {
    if a < j && IsSpace(s[j - 1]) then StripEnd(s, a, j - 1) else j
  }

  /** `str.strip()`: the longest slice of `s` that neither starts nor ends with
      whitespace, obtained by removing whitespace only. */
  function Strip(s: string): (r: string)
    ensures r == [] || (!IsSpace(r[0]) && !IsSpace(r[|r| - 1]))
    ensures exists a, b :: 0 <= a <= b <= |s| && r == s[a..b] && StrippedAt(s, a, b)
  {
    var a := StripStart(s, 0);
    var b := StripEnd(s, a, |s|);
    assert StrippedAt(s, a, b);
    s[a..b]
  }

  /** Everything of `s` outside `s[a..b]` is whitespace. */
  ghost predicate StrippedAt(s: string, a: nat, b: nat)
    requires a <= b <= |s|
  {
    (forall i :: 0 <= i < a ==> IsSpace(s[i])) && (forall i :: b <= i < |s| ==> IsSpace(s[i]))
  }

  /** The total length of `parts`. */
  function Lengths(parts: seq<string>): nat {
    if parts == [] then 0 else |parts[0]| + Lengths(parts[1..])
  }

  /** `sep.join(parts)`. */
  function Join(parts: seq<string>, sep: string): string {
    if parts == [] then ""
    else if |parts| == 1 then parts[0]
    else parts[0] + sep + Join(parts[1..], sep)
  }

  /** A join starts with the first part, ends with the last, and is as long
      as the parts plus one separator between each two neighbours. */
  lemma {:induction false} JoinShape(parts: seq<string>, sep: string)
    ensures |Join(parts, sep)| == Lengths(parts) + if parts == [] then 0 else (|parts| - 1) * |sep|
    ensures parts != [] ==> parts[0] <= Join(parts, sep)
    ensures parts != [] ==>
      (|parts[|parts| - 1]| <= |Join(parts, sep)| &&
       Join(parts, sep)[|Join(parts, sep)| - |parts[|parts| - 1]|..] == parts[|parts| - 1])
  {
    if |parts| > 1 {
      var rest := Join(parts[1..], sep);
      JoinShape(parts[1..], sep);
      var r := parts[0] + sep + rest;
      assert Join(parts, sep) == r;
      assert r[|r| - |rest|..] == rest;
      assert (|parts| - 1) * |sep| == (|parts| - 2) * |sep| + |sep|;
    }
  }

  /** Distinct elements. */
  predicate Distinct(s: seq<string>) {
    forall i, j :: 0 <= i < j < |s| ==> s[i] != s[j]
  }

  /** `s.split(sep)` for a one-character separator: never empty, no piece holds
      the separator, and joining the pieces back gives `s`. */
  function Split(s: string, sep: char): (r: seq<string>)
    ensures |r| >= 1
    ensures forall i :: 0 <= i < |r| ==> sep !in r[i]
    ensures Join(r, [sep]) == s
  {
    if s == [] then [""]
    else
      var rest := Split(s[1..], sep);
      if s[0] == sep then
        assert [sep] + Join(rest, [sep]) == s;
        [""] + rest
      else
        var r := [[s[0]] + rest[0]] + rest[1..];
        assert r[1..] == rest[1..];
        assert |rest| > 1 ==> Join(rest, [sep]) == rest[0] + [sep] + Join(rest[1..], [sep]);
        r
  }

  lemma {:induction false} SplitWithoutSeparator(p: string, sep: char)
    requires sep !in p
    ensures Split(p, sep) == [p]
  {
    if p != [] {
      SplitWithoutSeparator(p[1..], sep);
      assert [p[0]] + p[1..] == p;
    }
  }

  lemma {:induction false} SplitAfterPiece(p: string, rest: string, sep: char)
    requires sep !in p
    ensures Split(p + [sep] + rest, sep) == [p] + Split(rest, sep)
  {
    var s := p + [sep] + rest;
    if p == [] {
      assert s[1..] == rest;
    } else {
      assert s[1..] == p[1..] + [sep] + rest;
      SplitAfterPiece(p[1..], rest, sep);
      assert [p[0]] + p[1..] == p;
    }
  }

  /** Split is the inverse of Join as well: pieces free of the separator come
      back unchanged, so the pieces `split` yields are the only ones possible. */
  lemma {:induction false} SplitJoin(parts: seq<string>, sep: char)
    requires |parts| >= 1
    requires forall i :: 0 <= i < |parts| ==> sep !in parts[i]
    ensures Split(Join(parts, [sep]), sep) == parts
  {
    if |parts| == 1 {
      SplitWithoutSeparator(parts[0], sep);
    } else {
      SplitJoin(parts[1..], sep);
      SplitAfterPiece(parts[0], Join(parts[1..], [sep]), sep);
      assert [parts[0]] + parts[1..] == parts;
    }
  }
}
