/**
 * The repeating-fieldset helpers of the form script: when a fieldset
 * (one student, one liaison, ...) is removed, the remaining fieldsets are
 * renumbered 0..n-1, every input inside fieldset i gets index i in its
 * `name` (`students[3][firstname]` becomes `students[i][firstname]`) and
 * `id` (`id_student_3_firstname` becomes `id_student_i_firstname`), the
 * headers are relabelled 1..n, the hidden count and the `repeatno` URL
 * parameter are set to n and the remove buttons are shown only when more
 * than one fieldset is left. Also: appending the record id to the page URL
 * and reading a fieldset's index back from its id.
 */
module FormHandling {
  import opened Text

  // ---------------------------------------------------------------------------
  // The first `open digits close` in a string (the regexes /\[\d+\]/ and /_\d+_/)
  // ---------------------------------------------------------------------------

  /** The pattern `open \d+ close` matches starting at `i`. `\d+` is greedy and
      `close` is not a digit, so the match ends right after the digit run. */
  predicate MatchAt(s: string, i: nat, open: char, close: char) {
    i < |s| && s[i] == open &&
    var j := DigitsEnd(s, i + 1);
    i + 1 < j < |s| && s[j] == close
  }

  /** The leftmost match at or after `from`, as a regex search finds it. */
  function FirstMatch(s: string, from: nat, open: char, close: char): (r: Option<nat>)
    requires from <= |s|
    ensures r.Some? ==> from <= r.value && MatchAt(s, r.value, open, close)
    ensures r.Some? ==> forall p :: from <= p < r.value ==> !MatchAt(s, p, open, close)
    ensures r.None? ==> forall p :: from <= p < |s| ==> !MatchAt(s, p, open, close)
    decreases |s| - from
  {
    if from == |s| then None
    else if MatchAt(s, from, open, close) then Some(from)
    else FirstMatch(s, from + 1, open, close)
  }

  /** The number written between the delimiters of the first match, if any. */
  function FirstNumber(s: string, open: char, close: char): Option<nat> {
    match FirstMatch(s, 0, open, close)
    case None => None
    case Some(i) => Some(DigitsValue(s[i + 1..DigitsEnd(s, i + 1)]))
  }

  /** `s.replace(/open\d+close/, `open${index}close`)`: only the first match
      is rewritten; without a match the string is returned unchanged. */
  function ReplaceFirstNumber(s: string, open: char, close: char, index: nat): string {
    match FirstMatch(s, 0, open, close)
    case None => s
    case Some(i) => s[..i] + [open] + DecimalString(index) + [close] + s[DigitsEnd(s, i + 1) + 1..]
  }

  /** The replacement keeps the text before and after the match, swaps the
      digits for the decimal numeral of `index`, and leaves a string without
      a match alone. */
  lemma ReplaceFirstNumberKeepsContext(s: string, open: char, close: char, index: nat)
    ensures FirstMatch(s, 0, open, close).None? ==> ReplaceFirstNumber(s, open, close, index) == s
    ensures FirstMatch(s, 0, open, close).Some? ==>
      var i := FirstMatch(s, 0, open, close).value;
      var j := DigitsEnd(s, i + 1);
      var r := ReplaceFirstNumber(s, open, close, index);
      && s == s[..i] + [open] + s[i + 1..j] + [close] + s[j + 1..]
      && AllDigits(s[i + 1..j]) && |s[i + 1..j]| > 0
      && r == s[..i] + [open] + DecimalString(index) + [close] + s[j + 1..]
  {
    if FirstMatch(s, 0, open, close).Some? {
      var i := FirstMatch(s, 0, open, close).value;
      var j := DigitsEnd(s, i + 1);
      assert s == s[..i] + [open] + s[i + 1..j] + [close] + s[j + 1..];
    }
  }

  /** A string that agrees with `s` up to and including a non-digit at `i`
      has the same matches as `s` before `i`. */
  lemma MatchSamePrefix(s: string, t: string, i: nat, p: nat, open: char, close: char)
    requires p < i < |s| && i < |t|
    requires s[..i + 1] == t[..i + 1]
    requires !IsDigit(s[i])
    ensures MatchAt(s, p, open, close) <==> MatchAt(t, p, open, close)
  {
    assert s[p] == s[..i + 1][p];
    DigitsEndSamePrefix(s, t, i, p + 1);
    var j := DigitsEnd(s, p + 1);
    assert s[j] == s[..i + 1][j];
  }

  /** Indexing into `a + [open] + d + [close] + c`. */
  lemma SplicePieces(a: string, open: char, d: string, close: char, c: string)
    ensures var r := a + [open] + d + [close] + c;
      var e := |a| + 1 + |d|;
      && |r| == e + 1 + |c| && r[..|a|] == a && r[|a|] == open
      && r[|a| + 1..e] == d && r[e] == close && r[e + 1..] == c
  {
    var r := a + [open] + d + [close] + c;
    var e := |a| + 1 + |d|;
    assert r == (a + [open] + d) + ([close] + c);
    assert r[e + 1..] == c;
    assert r[..e] == a + [open] + d;
    assert r[|a| + 1..e] == r[..e][|a| + 1..];
  }

  /** The pieces of a replaced string: the prefix up to the match is kept,
      then come the delimiters around the new numeral, then the old suffix. */
  lemma {:induction false} ReplacedPieces(s: string, open: char, close: char, index: nat, i: nat)
    requires FirstMatch(s, 0, open, close) == Some(i)
    ensures var r := ReplaceFirstNumber(s, open, close, index);
      var d := DecimalString(index);
      var e := i + 1 + |d|;
      && e < |r| && r[..i + 1] == s[..i + 1] && r[i] == open
      && r[i + 1..e] == d && r[e] == close
      && r[e + 1..] == s[DigitsEnd(s, i + 1) + 1..]
  {
    assert MatchAt(s, i, open, close);
    SpliceAfterOpen(s, i, open, DecimalString(index), close, s[DigitsEnd(s, i + 1) + 1..]);
  }

  /** Splicing after the opening delimiter at `i` keeps `s` up to it. */
  lemma SpliceAfterOpen(s: string, i: nat, open: char, d: string, close: char, c: string)
    requires i < |s| && s[i] == open
    ensures var r := s[..i] + [open] + d + [close] + c;
      var e := i + 1 + |d|;
      && e < |r| && r[..i + 1] == s[..i + 1] && r[i] == open
      && r[i + 1..e] == d && r[e] == close && r[e + 1..] == c
  {
    SplicePieces(s[..i], open, d, close, c);
    assert s[..i + 1] == s[..i] + [open];
  }

  /** In the replaced string the first match is still at `i`, and its digit
      run is exactly the new numeral. */
  lemma {:induction false} ReplacedMatch(s: string, open: char, close: char, index: nat, i: nat)
    requires !IsDigit(open) && !IsDigit(close)
    requires FirstMatch(s, 0, open, close) == Some(i)
    ensures var r := ReplaceFirstNumber(s, open, close, index);
      && FirstMatch(r, 0, open, close) == Some(i)
      && DigitsEnd(r, i + 1) == i + 1 + |DecimalString(index)|
  {
    var d := DecimalString(index);
    var r := ReplaceFirstNumber(s, open, close, index);
    var e := i + 1 + |d|;
    ReplacedPieces(s, open, close, index, i);
    forall m | i + 1 <= m < e
      ensures IsDigit(r[m])
    {
      assert r[m] == r[i + 1..e][m - i - 1];
    }
    DigitsEndOfRun(r, i + 1, |d|);
    assert MatchAt(r, i, open, close);
    assert s[i] == open;
    forall p | 0 <= p < i
      ensures !MatchAt(r, p, open, close)
    {
      MatchSamePrefix(s, r, i, p, open, close);
    }
    FirstMatchIs(r, open, close, i);
  }

  /** After the replacement, the first match sits where it was and carries
      `index`: the renumbered string reads back as `index`. A string without a
      match still has none. */
  lemma {:induction false} NumberAfterReplace(s: string, open: char, close: char, index: nat)
    requires !IsDigit(open) && !IsDigit(close)
    ensures FirstMatch(ReplaceFirstNumber(s, open, close, index), 0, open, close) == FirstMatch(s, 0, open, close)
    ensures FirstNumber(ReplaceFirstNumber(s, open, close, index), open, close) ==
      if FirstMatch(s, 0, open, close).Some? then Some(index) else None
  {
    match FirstMatch(s, 0, open, close)
    case None =>
    case Some(i) =>
      var r := ReplaceFirstNumber(s, open, close, index);
      var d := DecimalString(index);
      ReplacedMatch(s, open, close, index, i);
      ReplacedPieces(s, open, close, index, i);
      assert r[i + 1..DigitsEnd(r, i + 1)] == d;
      DecimalRoundTrip(index);
  }

  /** A match with no match before it is the first one. */
  lemma FirstMatchIs(s: string, open: char, close: char, i: nat)
    requires MatchAt(s, i, open, close)
    requires forall p :: 0 <= p < i ==> !MatchAt(s, p, open, close)
    ensures FirstMatch(s, 0, open, close) == Some(i)
  {
  }

  /** Renumbering twice with the same index is the same as renumbering once. */
  lemma {:induction false} ReplaceFirstNumberIdempotent(s: string, open: char, close: char, index: nat)
    requires !IsDigit(open) && !IsDigit(close)
    ensures var r := ReplaceFirstNumber(s, open, close, index);
      ReplaceFirstNumber(r, open, close, index) == r
  {
    match FirstMatch(s, 0, open, close)
    case None =>
    case Some(i) =>
      var d := DecimalString(index);
      var r := ReplaceFirstNumber(s, open, close, index);
      var e := i + 1 + |d|;
      ReplacedMatch(s, open, close, index, i);
      ReplacedPieces(s, open, close, index, i);
      assert r[..i] == s[..i] by {
        assert r[..i] == r[..i + 1][..i];
        assert s[..i] == s[..i + 1][..i];
      }
      assert ReplaceFirstNumber(r, open, close, index) == r[..i] + [open] + d + [close] + r[e + 1..];
  }

  /** `name.replace(/\[\d+\]/, `[${index}]`)`. */
  function RenameField(name: string, index: nat): string {
    ReplaceFirstNumber(name, '[', ']', index)
  }

  /** `id.replace(/_\d+_/, `_${index}_`)`. */
  function RenameId(id: string, index: nat): string {
    ReplaceFirstNumber(id, '_', '_', index)
  }

  // ---------------------------------------------------------------------------
  // Fieldsets on the page
  // ---------------------------------------------------------------------------

  /** An input, select or textarea inside a fieldset; an absent attribute is "". */
  datatype Element = Element(name: string, id: string)

  /** A repeated fieldset: its own DOM id (never rewritten), the number shown
      in its `.local-equipment-{name}-{type}` heading, and its form elements. */
  datatype Fieldset = Fieldset(id: string, heading: nat, elements: seq<Element>)

  function RenumberElement(e: Element, index: nat): Element {
    Element(RenameField(e.name, index), RenameId(e.id, index))
  }

  function RenumberFieldset(f: Fieldset, index: nat): (g: Fieldset)
    ensures g.id == f.id && g.heading == f.heading && |g.elements| == |f.elements|
    ensures forall k :: 0 <= k < |f.elements| ==> g.elements[k] == RenumberElement(f.elements[k], index)
  {
    f.(elements := seq(|f.elements|, k requires 0 <= k < |f.elements| => RenumberElement(f.elements[k], index)))
  }

  /** Every element of `f` whose name or id carries a number carries `index`. */
  predicate NumberedAs(f: Fieldset, index: nat) {
    forall k :: 0 <= k < |f.elements| ==>
      FirstNumber(f.elements[k].name, '[', ']') in {None, Some(index)} &&
      FirstNumber(f.elements[k].id, '_', '_') in {None, Some(index)}
  }

  /** The page state after a removal: fieldset i shows heading i + 1 and its
      elements all carry index i. */
  predicate Consistent(fs: seq<Fieldset>) {
    forall i :: 0 <= i < |fs| ==> fs[i].heading == i + 1 && NumberedAs(fs[i], i)
  }

  /** What the page does to the list of fieldsets after a removal: relabel
      1..n and renumber the elements 0..n-1, in document order. */
  function Renumbered(fs: seq<Fieldset>): (r: seq<Fieldset>)
    ensures |r| == |fs|
    ensures forall i :: 0 <= i < |fs| ==>
      r[i].id == fs[i].id && r[i].heading == i + 1 && |r[i].elements| == |fs[i].elements|
  {
    seq(|fs|, i requires 0 <= i < |fs| => RenumberFieldset(fs[i], i).(heading := i + 1))
  }

  /** Renumbering one fieldset with index i leaves every number in it equal to i. */
  lemma RenumberFieldsetNumbersAs(f: Fieldset, index: nat)
    ensures NumberedAs(RenumberFieldset(f, index), index)
  {
    var g := RenumberFieldset(f, index);
    forall k | 0 <= k < |f.elements|
      ensures FirstNumber(g.elements[k].name, '[', ']') in {None, Some(index)}
      ensures FirstNumber(g.elements[k].id, '_', '_') in {None, Some(index)}
    {
      NumberAfterReplace(f.elements[k].name, '[', ']', index);
      NumberAfterReplace(f.elements[k].id, '_', '_', index);
    }
  }

  /** The renumbered page is consistent, whatever numbers it held before. */
  lemma RenumberedIsConsistent(fs: seq<Fieldset>)
    ensures Consistent(Renumbered(fs))
  {
    forall i | 0 <= i < |fs|
      ensures NumberedAs(Renumbered(fs)[i], i)
    {
      RenumberFieldsetNumbersAs(fs[i], i);
    }
  }

  /** Renumbering a renumbered page changes nothing. */
  lemma RenumberedIdempotent(fs: seq<Fieldset>)
    ensures Renumbered(Renumbered(fs)) == Renumbered(fs)
  {
    var r := Renumbered(fs);
    forall i | 0 <= i < |fs|
      ensures Renumbered(r)[i] == r[i]
    {
      var f := fs[i];
      forall k | 0 <= k < |f.elements|
        ensures RenumberElement(r[i].elements[k], i) == r[i].elements[k]
      {
        ReplaceFirstNumberIdempotent(f.elements[k].name, '[', ']', i);
        ReplaceFirstNumberIdempotent(f.elements[k].id, '_', '_', i);
      }
      assert RenumberFieldset(r[i], i).elements == r[i].elements;
    }
  }

  /** `updateTrashIcons`: the remove buttons are shown iff more than one fieldset is present. */
  function RemoveButtonsShown(count: nat): bool {
    count > 1
  }

  /** `updateHiddenFields`: the hidden input is `name + 's'` when `usePlural`, else `name`. */
  function HiddenInputName(name: string, usePlural: bool): (r: string)
    ensures |r| == |name| + (if usePlural then 1 else 0) && r[..|name|] == name
  {
    if usePlural then name + "s" else name
  }

  /**
   * The repeating fieldsets of one form (`name` is e.g. "student", `type`
   * the fieldset suffix; together they select `fieldset[id^='id_{name}{type}_']`),
   * the hidden inputs of the form by name, the `repeatno` URL parameter and
   * the visibility of the `.local-equipment-remove-{name}` buttons.
   */
  class RepeatingFieldsets {
    const name: string
    var fieldsets: array<Fieldset>
    var hiddenInputs: map<string, nat>
    var repeatNo: nat
    var removeButtonsShown: bool

    /** `setupStudentsHandling`: the handlers are installed and the remove
        buttons are set for the initial fieldsets. */
    constructor (name: string, initial: seq<Fieldset>, hiddenInputs: map<string, nat>, repeatNo: nat)
      ensures this.name == name && fresh(fieldsets) && fieldsets[..] == initial
      ensures this.hiddenInputs == hiddenInputs && this.repeatNo == repeatNo
      ensures removeButtonsShown == RemoveButtonsShown(|initial|)
    {
      this.name := name;
      fieldsets := new Fieldset[|initial|](i requires 0 <= i < |initial| => initial[i]);
      this.hiddenInputs := hiddenInputs;
      this.repeatNo := repeatNo;
      removeButtonsShown := |initial| > 1;
    }

    /** `updateFieldsetNumbers`: the i-th heading shows i + 1 (through the
        localised string); nothing else changes. */
    method UpdateFieldsetNumbers()
      modifies fieldsets
      ensures forall i :: 0 <= i < fieldsets.Length ==> fieldsets[i] == old(fieldsets[i]).(heading := i + 1)
    {
      for i := 0 to fieldsets.Length
        invariant forall k :: 0 <= k < i ==> fieldsets[k] == old(fieldsets[k]).(heading := k + 1)
        invariant forall k :: i <= k < fieldsets.Length ==> fieldsets[k] == old(fieldsets[k])
      {
        fieldsets[i] := fieldsets[i].(heading := i + 1);
      }
    }

    /** `renumberFormElements`: every element of fieldset i gets index i in
        its name and its id; labels and fieldset ids are untouched. */
    method RenumberFormElements()
      modifies fieldsets
      ensures forall i :: 0 <= i < fieldsets.Length ==> fieldsets[i] == RenumberFieldset(old(fieldsets[i]), i)
    {
      for i := 0 to fieldsets.Length
        invariant forall k :: 0 <= k < i ==> fieldsets[k] == RenumberFieldset(old(fieldsets[k]), k)
        invariant forall k :: i <= k < fieldsets.Length ==> fieldsets[k] == old(fieldsets[k])
      {
        var f := fieldsets[i];
        var elements := f.elements;
        for j := 0 to |elements|
          invariant |elements| == |f.elements|
          invariant forall k :: 0 <= k < j ==> elements[k] == RenumberElement(f.elements[k], i)
          invariant forall k :: j <= k < |elements| ==> elements[k] == f.elements[k]
        {
          var e := elements[j];
          var newName := e.name;
          if e.name != "" {
            newName := RenameField(e.name, i);
          }
          var newId := e.id;
          if e.id != "" {
            newId := RenameId(e.id, i);
          }
          elements := elements[j := Element(newName, newId)];
        }
        fieldsets[i] := f.(elements := elements);
      }
    }

    /** `updateHiddenFields(name, type, usePlural)`: the hidden count input (when
        the form has one) and the `repeatno` URL parameter get the number of fieldsets. */
    method UpdateHiddenFields(usePlural: bool)
      modifies this`hiddenInputs, this`repeatNo
      ensures var key := HiddenInputName(name, usePlural);
        hiddenInputs == if key in old(hiddenInputs) then old(hiddenInputs)[key := fieldsets.Length] else old(hiddenInputs)
      ensures repeatNo == fieldsets.Length
    {
      var key := HiddenInputName(name, usePlural);
      if key in hiddenInputs {
        hiddenInputs := hiddenInputs[key := fieldsets.Length];
      }
      repeatNo := fieldsets.Length;
    }

    /** `updateTrashIcons`. */
    method UpdateTrashIcons()
      modifies this`removeButtonsShown
      ensures removeButtonsShown == RemoveButtonsShown(fieldsets.Length)
    {
      removeButtonsShown := fieldsets.Length > 1;
    }

    /** The click handler of a remove button: the k-th fieldset leaves the
        page, then the labels, the hidden plural count, the element numbers
        and the remove buttons are brought up to date, in that order. */
    method RemoveFieldset(k: nat)
      requires k < fieldsets.Length
      modifies this, fieldsets
      ensures fresh(fieldsets)
      ensures fieldsets[..] == Renumbered(old(fieldsets[..k]) + old(fieldsets[k + 1..]))
      ensures Consistent(fieldsets[..])
      ensures fieldsets.Length == old(fieldsets.Length) - 1
      ensures var key := HiddenInputName(name, true);
        hiddenInputs == if key in old(hiddenInputs) then old(hiddenInputs)[key := fieldsets.Length] else old(hiddenInputs)
      ensures repeatNo == fieldsets.Length
      ensures removeButtonsShown == RemoveButtonsShown(fieldsets.Length)
    {
      var rest := fieldsets[..k] + fieldsets[k + 1..];
      fieldsets := new Fieldset[|rest|](i requires 0 <= i < |rest| => rest[i]);
      UpdateFieldsetNumbers();
      UpdateHiddenFields(true);
      RenumberFormElements();
      UpdateTrashIcons();
      assert fieldsets[..] == Renumbered(rest) by {
        forall i | 0 <= i < |rest|
          ensures fieldsets[..][i] == Renumbered(rest)[i]
        {
        }
      }
      RenumberedIsConsistent(rest);
    }
  }

  // ---------------------------------------------------------------------------
  // `updateURLId`
  // ---------------------------------------------------------------------------

  /** The URL `updateURLId` pushes, or None when the query already has an `id`
      parameter (`idParam` is `urlParams.get('id')`) and nothing is pushed. */
  function UrlWithId(href: string, idParam: Option<string>, id: string): (r: Option<string>)
    ensures r.None? <==> idParam.Some?
    ensures r.Some? ==> |r.value| > |href| && r.value[..|href|] == href && r.value[|href| + 1..] == "id=" + id
    ensures r.Some? ==> r.value[|href|] == (if '?' in href then '&' else '?')
  {
    if idParam.None? then
      var separator := if '?' in href then '&' else '?';
      Some(href + [separator] + "id=" + id)
    else None
  }

  /** Appending the id never gives the URL a second `?`: a URL with at most
      one `?` still has exactly one afterwards (the id itself has none). */
  lemma {:induction false} UrlWithIdHasOneQueryMark(href: string, id: string)
    requires Count(href, '?') <= 1 && '?' !in id
    ensures var r := UrlWithId(href, None, id);
      r.Some? && Count(r.value, '?') == 1
  {
    var separator := if '?' in href then '&' else '?';
    var r := href + [separator] + "id=" + id;
    assert r == href + ([separator] + ("id=" + id));
    CountAppend(href, [separator] + ("id=" + id), '?');
    CountAppend([separator], "id=" + id, '?');
    CountAppend("id=", id, '?');
    CountZero(id, '?');
    CountZero(href, '?');
    assert Count([separator], '?') == (if separator == '?' then 1 else 0) by {
      assert [separator][..0] == [];
    }
    assert Count("id=", '?') == 0 by {
      CountZero("id=", '?');
    }
  }

  // ---------------------------------------------------------------------------
  // `setupFieldsetNameUpdates`: the index of a fieldset and its fallback header
  // ---------------------------------------------------------------------------

  /** `s.split('_').pop()`: the text after the last `_`, or all of `s`. */
  function LastSegment(s: string): (r: string)
    ensures |r| <= |s| && r == s[|s| - |r|..]
    ensures '_' !in r
    ensures |r| < |s| ==> s[|s| - |r| - 1] == '_'
  {
    if |s| == 0 then s
    else if s[|s| - 1] == '_' then []
    else LastSegment(s[..|s| - 1]) + [s[|s| - 1]]
  }

  /** `parseInt(s, 10)`: skip leading white space, read an optional sign and
      the longest run of decimal digits; None stands for NaN (no digits). */
  function ParseIntDecimal(s: string): (r: Option<int>)
    ensures r.Some? ==> exists k :: 0 <= k < |s| && IsDigit(s[k])
  {
    var t := TrimJsStart(s);
    var negative := |t| > 0 && t[0] == '-';
    var u := if |t| > 0 && (t[0] == '-' || t[0] == '+') then t[1..] else t;
    var n := DigitsEnd(u, 0);
    if n == 0 then None
    else
      assert IsDigit(u[0]) && u[0] in s;
      var value: int := DigitsValue(u[..n]);
      Some(if negative then -value else value)
  }

  /** `parseInt(fieldset.id.split('_').pop(), 10)`. */
  function FieldsetIndex(fieldsetId: string): (r: Option<int>)
    ensures r.Some? ==> exists k :: 0 <= k < |fieldsetId| && IsDigit(fieldsetId[k]) && '_' !in fieldsetId[k + 1..]
  {
    var tail := LastSegment(fieldsetId);
    var r := ParseIntDecimal(tail);
    if r.Some? then DigitInLastSegment(fieldsetId, tail); r else r
  }

  /** A digit of a `_`-free suffix is a digit after the last `_`. */
  lemma DigitInLastSegment(s: string, tail: string)
    requires |tail| <= |s| && tail == s[|s| - |tail|..] && '_' !in tail
    requires exists k :: 0 <= k < |tail| && IsDigit(tail[k])
    ensures exists k :: 0 <= k < |s| && IsDigit(s[k]) && '_' !in s[k + 1..]
  {
    var k :| 0 <= k < |tail| && IsDigit(tail[k]);
    var m := |s| - |tail| + k;
    assert s[m] == tail[k];
    assert s[m + 1..] == tail[k + 1..];
  }

  /** The header text used when the localised string cannot be fetched:
      `Student ${index + 1}`, where NaN + 1 prints as "NaN". */
  function FallbackHeader(index: Option<int>): (r: string)
    ensures |r| > 8 && r[..8] == "Student "
  {
    "Student " + match index
      case None => "NaN"
      case Some(i) => IntString(i + 1)
  }

  /** The segment after the last `_` of `prefix + "_" + tail` is `tail`
      when `tail` has no `_`. */
  lemma {:induction false} LastSegmentOfSuffix(prefix: string, tail: string)
    requires '_' !in tail
    ensures LastSegment(prefix + "_" + tail) == tail
    decreases |tail|
  {
    var s := prefix + "_" + tail;
    if |tail| == 0 {
      assert s[|s| - 1] == '_';
    } else {
      assert s[|s| - 1] == tail[|tail| - 1];
      assert s[..|s| - 1] == prefix + "_" + tail[..|tail| - 1];
      LastSegmentOfSuffix(prefix, tail[..|tail| - 1]);
      assert tail == tail[..|tail| - 1] + [tail[|tail| - 1]];
    }
  }

  /** `parseInt` reads a decimal numeral back as the number it was written from. */
  lemma {:induction false} ParseNumeral(n: nat)
    ensures ParseIntDecimal(DecimalString(n)) == Some(n)
  {
    var d := DecimalString(n);
    NumeralIsTrimmed(d);
    assert d[0] != '-' && d[0] != '+';
    DigitsEndOfRun(d, 0, |d|);
    assert d[..|d|] == d;
    DecimalRoundTrip(n);
  }

  /** A string that starts with a digit has no leading white space to skip. */
  lemma NumeralIsTrimmed(d: string)
    requires |d| > 0 && IsDigit(d[0])
    ensures TrimJsStart(d) == d
  {
    assert !IsJsWhiteSpace(d[0]);
  }

  /** A fieldset id that ends in `_n` gives back index n, and its fallback
      header is 1-based: "Student n+1". */
  lemma {:induction false} FieldsetIndexRoundTrip(prefix: string, n: nat)
    ensures FieldsetIndex(prefix + "_" + DecimalString(n)) == Some(n)
    ensures FallbackHeader(FieldsetIndex(prefix + "_" + DecimalString(n))) == "Student " + DecimalString(n + 1)
  {
    var d := DecimalString(n);
    var id := prefix + "_" + d;
    NoUnderscoreInNumeral(n);
    LastSegmentOfSuffix(prefix, d);
    ParseNumeral(n);
    assert FieldsetIndex(id) == ParseIntDecimal(d) == Some(n);
    FallbackHeaderOfIndex(n);
  }

  lemma FallbackHeaderOfIndex(n: nat)
    ensures FallbackHeader(Some(n)) == "Student " + DecimalString(n + 1)
  {
    var t := IntString(n + 1);
    assert t == DecimalString(n + 1);
    assert FallbackHeader(Some(n)) == "Student " + t;
  }

  lemma NoUnderscoreInNumeral(n: nat)
    ensures '_' !in DecimalString(n)
  {
    var d := DecimalString(n);
    forall k | 0 <= k < |d|
      ensures d[k] != '_'
    {
      assert IsDigit(d[k]);
    }
  }
}
