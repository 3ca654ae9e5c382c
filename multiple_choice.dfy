/** MultipleChoiceValidator.validate. The selected values are produced by a
    lazy `map` over the comma-separated pieces of the raw value, and a Python
    `map` object can be consumed only once: `list(...)` drains it, so the
    `set(...)` built from it next is always empty. This module models the
    iterator as explicit state, proves that the validation as written rejects
    every input, and states the evidently intended check beside it. */
module MultipleChoiceRule {
  import opened Values
  import opened Text
  import opened Rules

  /** `str.lower(str.strip(piece))`. */
  function Normalize(piece: string): string {
    Lower(Strip(piece))
  }

  function Normalized(pieces: seq<string>): (r: seq<string>)
    ensures |r| == |pieces|
  {
    seq(|pieces|, i requires 0 <= i < |pieces| => Normalize(pieces[i]))
  }

  /** The one-shot iterator `map(str.lower, map(str.strip, pieces))`: it yields
      the normalized piece at `position` and advances; once at the end it
      yields nothing more. */
  class SelectedValues {
    const pieces: seq<string>
    var position: nat

    constructor (pieces: seq<string>)
      ensures this.pieces == pieces && position == 0
    {
      this.pieces := pieces;
      position := 0;
    }

    /** `list(self)`: everything not yet consumed, after which the iterator
        is exhausted. */
    method Drain() returns (out: seq<string>)
      requires position <= |pieces|
      modifies this
      ensures position == |pieces|
      ensures out == Normalized(pieces[old(position)..])
    {
      var start := position;
      out := [];
      while position < |pieces|
        invariant start <= position <= |pieces|
        invariant |out| == position - start
        invariant forall k :: 0 <= k < |out| ==> out[k] == Normalize(pieces[start + k])
      {
        out := out + [Normalize(pieces[position])];
        position := position + 1;
      }
      var rest := pieces[start..];
      assert |out| == |Normalized(rest)|;
      assert forall k :: 0 <= k < |out| ==> out[k] == Normalized(rest)[k];
    }
  }

  function SetOf(s: seq<string>): set<string> {
    set x | x in s
  }

  /** MultipleChoiceValidator.validate as written: the length of the drained
      list is compared with the size of a set built from the same, now
      exhausted, iterator. `split` always yields at least one piece, so the
      sizes always differ and every value is rejected as holding duplicates. */
  method ValidateAsWritten(choices: seq<KwVal>, value: string) returns (r: Check)
    ensures r == Fail(DuplicateChoices)
  {
    var selectedValues := new SelectedValues(Split(value, ','));
    var listed := selectedValues.Drain();
    var leftOver := selectedValues.Drain();
    assert leftOver == [];
    if |listed| != |SetOf(leftOver)| {
      r := Fail(DuplicateChoices);
    } else {
      // The membership test would iterate the same exhausted iterator, and
      // `all` over nothing holds; the sizes never agree, so it is never reached.
      assert false;
      r := Pass;
    }
  }

  lemma {:induction false} SetOfSize(s: seq<string>)
    ensures |SetOf(s)| <= |s|
    ensures |SetOf(s)| == |s| <==> Distinct(s)
  {
    if s != [] {
      var t := s[1..];
      SetOfSize(t);
      assert SetOf(s) == {s[0]} + SetOf(t) by {
        assert forall x :: x in s <==> x == s[0] || x in t;
      }
      if s[0] in t {
        assert SetOf(s) == SetOf(t);
        var k :| 0 <= k < |t| && t[k] == s[0];
        assert s[k + 1] == s[0];
      } else {
        assert |SetOf(s)| == 1 + |SetOf(t)|;
        if Distinct(t) {
          forall i, j | 0 <= i < j < |s| ensures s[i] != s[j] {
            if i > 0 { assert s[i] == t[i - 1] && s[j] == t[j - 1]; }
            else { assert s[j] == t[j - 1]; }
          }
        }
        if Distinct(s) {
          forall i, j | 0 <= i < j < |t| ensures t[i] != t[j] {
            assert t[i] == s[i + 1] && t[j] == s[j + 1];
          }
        }
      }
    }
  }

  /** Some string choice lowers to `v`. */
  ghost predicate Offered(choices: seq<KwVal>, v: string) {
    exists i :: 0 <= i < |choices| && choices[i].KStr? && Lower(choices[i].s) == v
  }

  /** `all(v in map(str.lower, choices) for v in selected)`, raising
      `ValidationError` at the first selected value that is not offered. */
  function AllChosen(selected: seq<string>, choices: seq<KwVal>): (r: Check)
    ensures AllStrings(choices) ==> (r == Pass <==> forall k :: 0 <= k < |selected| ==> Offered(choices, selected[k]))
    ensures AllStrings(choices) && r != Pass ==> r == Fail(InvalidChoices(Join(Strings(choices), ", ")))
    ensures r.Raise? ==> r.error == TypeError && !AllStrings(choices)
    ensures r.Fail? ==> r.msg.InvalidChoices?
  {
    if selected == [] then Pass
    else
      LoweredMembershipSpec(choices, selected[0]);
      match LoweredMembership(choices, selected[0])
      case Member => AllChosen(selected[1..], choices)
      case LowerOnNonString => Raise(TypeError)
      case NotMember => Fail(InvalidChoices(Join(Strings(choices), ", ")))
  }

  /** The normalized selection: the comma-separated pieces of the value,
      stripped and lowered. */
  function Selection(value: string): (r: seq<string>)
    ensures |r| >= 1
  {
    Normalized(Split(value, ','))
  }

  /** The validation the code evidently intends: materialize the selection
      once, reject duplicates, then reject any value not among the choices. */
  function ValidateIntended(choices: seq<KwVal>, value: string): (r: Check)
    ensures r == Fail(DuplicateChoices) <==> !Distinct(Selection(value))
    ensures AllStrings(choices) ==>
      (r == Pass <==>
        Distinct(Selection(value)) && forall k :: 0 <= k < |Selection(value)| ==> Offered(choices, Selection(value)[k]))
    ensures AllStrings(choices) && Distinct(Selection(value)) && r != Pass ==>
      r == Fail(InvalidChoices(Join(Strings(choices), ", ")))
  {
    var selected := Selection(value);
    SetOfSize(selected);
    if |selected| != |SetOf(selected)| then Fail(DuplicateChoices)
    else AllChosen(selected, choices)
  }

  lemma SplitExample()
    ensures Split("a, B", ',') == ["a", " B"]
  {
    assert Join(["a", " B"], [',']) == "a, B";
    SplitJoin(["a", " B"], ',');
  }

  lemma NormalizeSpacedExample()
    ensures Normalize(" B") == "b"
  {
    var s := " B";
    assert StripStart(s, 0) == 1;
    assert StripEnd(s, 1, 2) == 2;
    assert Strip(s) == s[1..2] == "B";
    assert Lower("B")[0] == 'b';
  }

  lemma NormalizePlainExample()
    ensures Normalize("a") == "a"
  {
    assert Strip("a") == "a"[0..1] == "a";
    assert Lower("a")[0] == 'a';
  }

  lemma NormalizedPieces(pieces: seq<string>)
    requires |pieces| == 2 && pieces[0] == "a" && pieces[1] == " B"
    ensures Normalized(pieces) == ["a", "b"]
  {
    NormalizeSpacedExample();
    NormalizePlainExample();
    var r := Normalized(pieces);
    assert r[0] == "a" && r[1] == "b";
  }

  lemma SelectionExample()
    ensures Selection("a, B") == ["a", "b"]
  {
    SplitExample();
    var pieces := Split("a, B", ',');
    assert |pieces| == 2 && pieces[0] == "a" && pieces[1] == " B";
    NormalizedPieces(pieces);
  }

  lemma OfferedExample(choices: seq<KwVal>)
    requires choices == [KStr("a"), KStr("b"), KStr("c")]
    ensures Offered(choices, "a") && Offered(choices, "b")
  {
    assert Lower("a")[0] == 'a' && Lower("b")[0] == 'b';
    assert Lower(choices[0].s) == "a" && Lower(choices[1].s) == "b";
  }

  lemma PassesWhenSelectionIsAB(choices: seq<KwVal>, value: string)
    requires choices == [KStr("a"), KStr("b"), KStr("c")]
    requires Selection(value) == ["a", "b"]
    ensures ValidateIntended(choices, value) == Pass
  {
    OfferedExample(choices);
    var selected := Selection(value);
    assert Distinct(selected);
    assert AllStrings(choices);
    assert forall k :: 0 <= k < |selected| ==> Offered(choices, selected[k]);
  }

  lemma IntendedExample(choices: seq<KwVal>)
    requires choices == [KStr("a"), KStr("b"), KStr("c")]
    ensures ValidateIntended(choices, "a, B") == Pass
  {
    SelectionExample();
    PassesWhenSelectionIsAB(choices, "a, B");
  }

  /** The selection "a, B" among the choices a, b and c: the code as written
      rejects it as holding duplicates, the intended check accepts it. */
  method RejectsValidSelection() returns (asWritten: Check, intended: Check)
    ensures asWritten == Fail(DuplicateChoices)
    ensures intended == Pass
  {
    var choices := [KStr("a"), KStr("b"), KStr("c")];
    asWritten := ValidateAsWritten(choices, "a, B");
    IntendedExample(choices);
    intended := ValidateIntended(choices, "a, B");
  }
}
