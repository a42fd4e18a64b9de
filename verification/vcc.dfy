/**
 * The virtual course consent (VCC) submission list page: the guarded
 * delete action, the default ordering, and the loop that turns each
 * submission of the joined query into one 17-cell table row: the parent's
 * mailing address (first matching shadow-profile row), a pickup name taken
 * from `#...#` in the partnership's pickup instructions, and a pickup
 * location cell that carries over from earlier rows when a submission has
 * no pickup street address.
 */
module VccSubmissions {
  import opened Text

  /** One row of the joined submission query; a NULL column is "". */
  datatype Submission = Submission(
    id: int,
    userid: int,
    timecreated: int,
    parentFirstname: string,
    parentLastname: string,
    parentEmail: string,
    parentPhone2: string,
    partnershipName: string,
    pickupExtrainstructions: string,
    pickupStreetaddress: string,
    pickupCity: string,
    pickupState: string,
    pickupZipcode: string,
    starttime: int,
    endtime: int,
    pickupmethod: string,
    pickuppersonname: string,
    pickuppersonphone: string,
    pickuppersondetails: string,
    usernotes: string,
    adminnotes: string)

  /** One row of the parent mailing-address query over the shadow-profile table. */
  datatype ParentAddress = ParentAddress(
    userid: int,
    streetaddress: string,
    apartment: string,
    city: string,
    state: string,
    zipcode: string,
    extrainstructions: string)

  /** What the page takes from the host framework: date formatting (`userdate`
      with the date, time and month/day/year formats), the localised strings
      "Apt" and "contact us for pickup", and the student list helper. */
  datatype Renderer = Renderer(
    date: int -> string,
    time: int -> string,
    createdDate: int -> string,
    apt: string,
    contactUsForPickup: string,
    students: Submission -> string)

  // ---------------------------------------------------------------------------
  // Delete action and ordering
  // ---------------------------------------------------------------------------

  /** The submission table after the `delete` request parameter (0 when absent)
      and the session-key check: the row with that id goes, and only it. */
  function DeleteSubmission(table: map<int, Submission>, delete: int, sesskeyConfirmed: bool)
    : (r: map<int, Submission>)
    ensures delete != 0 && sesskeyConfirmed ==> r.Keys == table.Keys - {delete}
    ensures !(delete != 0 && sesskeyConfirmed) ==> r == table
    ensures forall k :: k in r ==> k in table && r[k] == table[k]
  {
    if delete != 0 && sesskeyConfirmed then table - {delete} else table
  }

  const DefaultSort: string := "vccsubmission.timecreated DESC"

  /** The ORDER BY clause: the table's own sort when it has one, else newest first. */
  function SortClause(tableSort: string): (r: string)
    ensures Truthy(tableSort) ==> r == tableSort
    ensures !Truthy(tableSort) ==> r == DefaultSort
  {
    if Truthy(tableSort) then tableSort else DefaultSort
  }

  // ---------------------------------------------------------------------------
  // Mailing address
  // ---------------------------------------------------------------------------

  /** The mailing address cell: `street, Apt apartment, city, state zip` when the
      apartment is truthy in PHP's sense, else `street, city, state zip`. */
  function FormatMailingAddress(a: ParentAddress, apt: string): (r: string)
    ensures |a.streetaddress| <= |r| && r[..|a.streetaddress|] == a.streetaddress
    ensures |a.zipcode| < |r| && r[|r| - |a.zipcode| - 1..] == " " + a.zipcode
  {
    if Truthy(a.apartment) then
      a.streetaddress + ", " + apt + " " + a.apartment + ", " + a.city + ", " + a.state + " " + a.zipcode
    else
      a.streetaddress + ", " + a.city + ", " + a.state + " " + a.zipcode
  }

  /** With an apartment, the address is the plain one with `, Apt apartment`
      inserted after the street; `""` and `"0"` both give the plain address. */
  lemma ApartmentIsInsertedAfterStreet(a: ParentAddress, apt: string)
    ensures var plain := FormatMailingAddress(a.(apartment := ""), apt);
      && |plain| >= |a.streetaddress| && plain[..|a.streetaddress|] == a.streetaddress
      && FormatMailingAddress(a.(apartment := "0"), apt) == plain
      && (Truthy(a.apartment) ==>
            FormatMailingAddress(a, apt) ==
            a.streetaddress + ", " + apt + " " + a.apartment + plain[|a.streetaddress|..])
  {
    var plain := FormatMailingAddress(a.(apartment := ""), apt);
    var rest := ", " + a.city + ", " + a.state + " " + a.zipcode;
    assert plain == a.streetaddress + rest;
    assert plain[|a.streetaddress|..] == rest;
  }

  /** The index of the first address row of `userid`, if any. */
  function FirstRowOf(rows: seq<ParentAddress>, userid: int): Option<nat> {
    FirstIndex(rows, (a: ParentAddress) => a.userid == userid)
  }

  /** The mailing address and mailing instructions cells of a submission by `userid`. */
  function MailingCells(rows: seq<ParentAddress>, userid: int, apt: string): (string, string) {
    match FirstRowOf(rows, userid)
    case None => ("", "")
    case Some(k) => (FormatMailingAddress(rows[k], apt), rows[k].extrainstructions)
  }

  /** The inner lookup loop: scan the address rows and stop at the first one
      of the submission's user; with no such row both cells stay "". */
  method LookupMailingAddress(rows: seq<ParentAddress>, userid: int, apt: string)
    returns (address: string, instructions: string)
    ensures (address, instructions) == MailingCells(rows, userid, apt)
    ensures (forall k :: 0 <= k < |rows| ==> rows[k].userid != userid) ==> address == "" && instructions == ""
  {
    address, instructions := "", "";
    var found := false;
    var i := 0;
    while i < |rows|
      invariant 0 <= i <= |rows|
      invariant !found
      invariant forall k :: 0 <= k < i ==> rows[k].userid != userid
      invariant address == "" && instructions == ""
    {
      var row := rows[i];
      if row.userid == userid {
        address := FormatMailingAddress(row, apt);
        instructions := row.extrainstructions;
        found := true;
      }
      i := i + 1;
      if found {
        break;
      }
    }
  }

  // ---------------------------------------------------------------------------
  // Pickup name: the first `#...#` of the pickup instructions (/#(.*?)#/)
  // ---------------------------------------------------------------------------

  /** The first index at or after `k` holding `#` or a line feed (which `.`
      does not match), or `|s|`. */
  function NextStop(s: string, k: nat): (j: nat)
    requires k <= |s|
    ensures k <= j <= |s|
    ensures forall m :: k <= m < j ==> s[m] != '#' && s[m] != '\n'
    ensures j < |s| ==> s[j] == '#' || s[j] == '\n'
    decreases |s| - k
  {
    if k == |s| || s[k] == '#' || s[k] == '\n' then k else NextStop(s, k + 1)
  }

  /** The lazy pattern `#(.*?)#` matches at `i`: a `#`, then the nearest `#`
      with no line feed in between. */
  predicate HashPairAt(s: string, i: nat) {
    i < |s| && s[i] == '#' &&
    var j := NextStop(s, i + 1);
    j < |s| && s[j] == '#'
  }

  /** The leftmost match at or after `from`. */
  function FirstHashPair(s: string, from: nat): (r: Option<nat>)
    requires from <= |s|
    ensures r.Some? ==> (from <= r.value && HashPairAt(s, r.value)
      && forall p :: from <= p < r.value ==> !HashPairAt(s, p))
    ensures r.None? ==> forall p :: from <= p < |s| ==> !HashPairAt(s, p)
    decreases |s| - from
  {
    if from == |s| then None
    else if HashPairAt(s, from) then Some(from)
    else FirstHashPair(s, from + 1)
  }

  /** The pickup name and the rewritten pickup instructions: when the
      instructions are non-empty (PHP `empty`) and hold `#name#`, the name is
      the text of the first match and the instructions lose that match (only
      it) and are trimmed; otherwise the name is the pickup city and the
      instructions stay as they are. */
  function PickupName(extrainstructions: string, city: string): (r: (string, string))
    ensures r.0 == city || ('#' !in r.0 && '\n' !in r.0)
  {
    var s := extrainstructions;
    if !Empty(s) && FirstHashPair(s, 0).Some? then CutMatch(s, FirstHashPair(s, 0).value)
    else (city, s)
  }

  /** The text of the match at `i`, and the trimmed rest once that match is
      cut out. */
  function CutMatch(s: string, i: nat): (string, string)
    requires HashPairAt(s, i)
  {
    var j := NextStop(s, i + 1);
    (s[i + 1..j], Trim(s[..i] + s[j + 1..]))
  }

  /** In `before#name#after` the first lazy match is the marker around `name`. */
  lemma MarkerIsFirstPair(before: string, name: string, after: string)
    requires '#' !in before && '#' !in name && '\n' !in name
    ensures var s := before + "#" + name + "#" + after;
      && FirstHashPair(s, 0) == Some(|before|)
      && NextStop(s, |before| + 1) == |before| + 1 + |name|
  {
    var s := before + "#" + name + "#" + after;
    var i := |before|;
    var j := i + 1 + |name|;
    assert s[i] == '#' && s[j] == '#';
    forall m | i + 1 <= m < j
      ensures s[m] != '#' && s[m] != '\n'
    {
      assert s[m] == name[m - i - 1];
    }
    NextStopOfRun(s, i + 1, j);
    assert HashPairAt(s, i);
    forall p | 0 <= p < i
      ensures !HashPairAt(s, p)
    {
      assert s[p] == before[p];
    }
    FirstHashPairIs(s, i);
  }

  /** A match with no match before it is the first one. */
  lemma FirstHashPairIs(s: string, i: nat)
    requires HashPairAt(s, i)
    requires forall p :: 0 <= p < i ==> !HashPairAt(s, p)
    ensures FirstHashPair(s, 0) == Some(i)
  {
  }

  /** Instructions written as `before#name#after`, with no `#` before the
      marker and neither `#` nor a line feed inside the name, yield that name
      and the trimmed rest `before + after`. */
  lemma PickupNameOfMarkedText(before: string, name: string, after: string, city: string)
    requires '#' !in before && '#' !in name && '\n' !in name
    ensures PickupName(before + "#" + name + "#" + after, city) == (name, Trim(before + after))
  {
    var s := before + "#" + name + "#" + after;
    var i := |before|;
    var j := i + 1 + |name|;
    MarkerIsFirstPair(before, name, after);
    assert !Empty(s) by {
      assert s[i] == '#';
    }
    assert s[i + 1..j] == name && s[..i] == before && s[j + 1..] == after;
    assert PickupName(s, city) == (s[i + 1..j], Trim(s[..i] + s[j + 1..]));
  }

  lemma {:induction false} NextStopOfRun(s: string, k: nat, j: nat)
    requires k <= j < |s|
    requires forall m :: k <= m < j ==> s[m] != '#' && s[m] != '\n'
    requires s[j] == '#'
    ensures NextStop(s, k) == j
    decreases j - k
  {
    if k < j {
      NextStopOfRun(s, k + 1, j);
    }
  }

  /** Instructions without any `#` leave the pickup name at the city. */
  lemma PickupNameWithoutMarker(extrainstructions: string, city: string)
    requires '#' !in extrainstructions
    ensures PickupName(extrainstructions, city) == (city, extrainstructions)
  {
    var s := extrainstructions;
    forall p | 0 <= p < |s|
      ensures !HashPairAt(s, p)
    {
      assert s[p] != '#';
    }
  }

  /** No lazy `#...#` match starts before `i`. */
  predicate NoHashPairBefore(s: string, i: nat) {
    forall p :: 0 <= p < i && p < |s| ==> !HashPairAt(s, p)
  }

  /** The rule for every instructions text: when it is empty or holds no
      lazy `#...#` match, the name is the city and the text is kept; otherwise
      the first match `i` gives the name, and the text loses that match and is
      trimmed. */
  lemma PickupNameRule(extrainstructions: string, city: string)
    ensures var s := extrainstructions;
      (Empty(s) || NoHashPairBefore(s, |s|)) ==> PickupName(s, city) == (city, s)
    ensures var s := extrainstructions;
      forall i: nat :: !Empty(s) && HashPairAt(s, i) && NoHashPairBefore(s, i) ==>
        PickupName(s, city) == (s[i + 1..NextStop(s, i + 1)], Trim(s[..i] + s[NextStop(s, i + 1) + 1..]))
  {
    var s := extrainstructions;
    if Empty(s) || NoHashPairBefore(s, |s|) {
      PickupNameWithoutMatch(s, city);
    }
    PickupNameOfEachFirstMatch(s, city);
  }

  /** The second half of `PickupNameRule`: a first match gives the name. */
  lemma PickupNameOfEachFirstMatch(s: string, city: string)
    ensures forall i: nat :: !Empty(s) && HashPairAt(s, i) && NoHashPairBefore(s, i) ==>
      PickupName(s, city) == (s[i + 1..NextStop(s, i + 1)], Trim(s[..i] + s[NextStop(s, i + 1) + 1..]))
  {
    forall i: nat | !Empty(s) && HashPairAt(s, i) && NoHashPairBefore(s, i)
      ensures PickupName(s, city) == (s[i + 1..NextStop(s, i + 1)], Trim(s[..i] + s[NextStop(s, i + 1) + 1..]))
    {
      assert forall p :: 0 <= p < i ==> !HashPairAt(s, p);
      FirstHashPairIs(s, i);
      assert PickupName(s, city) == CutMatch(s, i);
      CutMatchPieces(s, i);
    }
  }

  /** The first half of `PickupNameRule`: without a match the city stays. */
  lemma PickupNameWithoutMatch(s: string, city: string)
    requires Empty(s) || NoHashPairBefore(s, |s|)
    ensures PickupName(s, city) == (city, s)
  {
  }

  /** `CutMatch` written out. */
  lemma CutMatchPieces(s: string, i: nat)
    requires HashPairAt(s, i)
    ensures CutMatch(s, i) == (s[i + 1..NextStop(s, i + 1)], Trim(s[..i] + s[NextStop(s, i + 1) + 1..]))
  {
  }

  // ---------------------------------------------------------------------------
  // Pickup location cell, carried across rows
  // ---------------------------------------------------------------------------

  /** `$datetime`: the pickup date, start time and end time. */
  function PickupTime(s: Submission, fmt: Renderer): string {
    fmt.date(s.starttime) + " " + fmt.time(s.starttime) + " - " + fmt.time(s.endtime)
  }

  /** The formatted pickup location of one submission. */
  function PickupLocation(s: Submission, fmt: Renderer): string {
    var name := PickupName(s.pickupExtrainstructions, s.pickupCity).0;
    name + " — " + PickupTime(s, fmt) + " — " + s.pickupStreetaddress + ", " + s.pickupCity + ", "
      + s.pickupState + " " + s.pickupZipcode
  }

  /** `$formattedpickuplocation` after the submissions `subs` have been
      processed: reassigned only by a submission whose pickup street address
      is truthy, otherwise left as it was. */
  function PickupCellAfter(subs: seq<Submission>, fmt: Renderer): string {
    if |subs| == 0 then fmt.contactUsForPickup
    else if Truthy(subs[|subs| - 1].pickupStreetaddress) then PickupLocation(subs[|subs| - 1], fmt)
    else PickupCellAfter(subs[..|subs| - 1], fmt)
  }

  /** The pickup cell is the location of the LAST submission so far with a
      pickup street address, or "contact us for pickup" when there is none. */
  lemma {:induction false} PickupCellIsLastWithStreet(subs: seq<Submission>, fmt: Renderer)
    ensures (forall k :: 0 <= k < |subs| ==> !Truthy(subs[k].pickupStreetaddress)) ==>
      PickupCellAfter(subs, fmt) == fmt.contactUsForPickup
    ensures forall k ::
      (0 <= k < |subs| && Truthy(subs[k].pickupStreetaddress)
       && forall m :: k < m < |subs| ==> !Truthy(subs[m].pickupStreetaddress))
      ==> PickupCellAfter(subs, fmt) == PickupLocation(subs[k], fmt)
  {
    if |subs| > 0 {
      var init := subs[..|subs| - 1];
      PickupCellIsLastWithStreet(init, fmt);
      assert forall k :: 0 <= k < |init| ==> init[k] == subs[k];
    }
  }

  // ---------------------------------------------------------------------------
  // Rows
  // ---------------------------------------------------------------------------

  const Columns: seq<string> := [
    "timecreated", "parent_firstname", "parent_lastname", "parent_email", "parent_phone2",
    "partnership_name", "students", "parent_mailing_address", "parent_mailing_extrainstructions",
    "pickup", "pickupmethod", "pickuppersonname", "pickuppersonphone", "pickuppersondetails",
    "usernotes", "adminnotes", "actions"]

  /** The value a column shows for a submission, looked up by column name. */
  function Cell(column: string, s: Submission, address: string, instructions: string, pickup: string, fmt: Renderer): string {
    match column
    case "timecreated" => fmt.createdDate(s.timecreated)
    case "parent_firstname" => s.parentFirstname
    case "parent_lastname" => s.parentLastname
    case "parent_email" => s.parentEmail
    case "parent_phone2" => s.parentPhone2
    case "partnership_name" => s.partnershipName
    case "students" => fmt.students(s)
    case "parent_mailing_address" => address
    case "parent_mailing_extrainstructions" => instructions
    case "pickup" => pickup
    case "pickupmethod" => s.pickupmethod
    case "pickuppersonname" => s.pickuppersonname
    case "pickuppersonphone" => s.pickuppersonphone
    case "pickuppersondetails" => s.pickuppersondetails
    case "usernotes" => s.usernotes
    case "adminnotes" => s.adminnotes
    case _ => ""
  }

  /** The row as the page appends it, cell by cell. */
  function Row(s: Submission, address: string, instructions: string, pickup: string, fmt: Renderer)
    : (row: seq<string>)
    ensures |row| == |Columns| == 17
    ensures row[|Columns| - 1] == ""
  {
    [fmt.createdDate(s.timecreated), s.parentFirstname, s.parentLastname, s.parentEmail, s.parentPhone2,
     s.partnershipName, fmt.students(s), address, instructions, pickup, s.pickupmethod,
     s.pickuppersonname, s.pickuppersonphone, s.pickuppersondetails, s.usernotes, s.adminnotes, ""]
  }

  /** Each cell of the row is the value its column names, in column order. */
  lemma RowFollowsColumns(s: Submission, address: string, instructions: string, pickup: string, fmt: Renderer)
    ensures forall k :: 0 <= k < |Columns| ==>
      Row(s, address, instructions, pickup, fmt)[k] == Cell(Columns[k], s, address, instructions, pickup, fmt)
  {
  }

  /** The row the page shows for submission `k`: its mailing cells from the
      address rows, and the pickup cell as carried after submissions 0..k. */
  function RowOf(subs: seq<Submission>, addresses: seq<ParentAddress>, fmt: Renderer, k: nat): seq<string>
    requires k < |subs|
  {
    var cells := MailingCells(addresses, subs[k].userid, fmt.apt);
    Row(subs[k], cells.0, cells.1, PickupCellAfter(subs[..k + 1], fmt), fmt)
  }

  /** The rows of the first `n` submissions. */
  function RowsOf(subs: seq<Submission>, addresses: seq<ParentAddress>, fmt: Renderer, n: nat): (rows: seq<seq<string>>)
    requires n <= |subs|
    ensures |rows| == n
  {
    if n == 0 then [] else RowsOf(subs, addresses, fmt, n - 1) + [RowOf(subs, addresses, fmt, n - 1)]
  }

  lemma {:induction false} RowsOfAt(subs: seq<Submission>, addresses: seq<ParentAddress>, fmt: Renderer, n: nat)
    requires n <= |subs|
    ensures forall k :: 0 <= k < n ==> RowsOf(subs, addresses, fmt, n)[k] == RowOf(subs, addresses, fmt, k)
  {
    if n > 0 {
      RowsOfAt(subs, addresses, fmt, n - 1);
    }
  }

  /** One more submission adds its row. */
  lemma RowsOfStep(subs: seq<Submission>, addresses: seq<ParentAddress>, fmt: Renderer, i: nat,
                   address: string, instructions: string, pickupCell: string)
    requires i < |subs| && (address, instructions) == MailingCells(addresses, subs[i].userid, fmt.apt)
    requires pickupCell == PickupCellAfter(subs[..i + 1], fmt)
    ensures RowsOf(subs, addresses, fmt, i + 1) == RowsOf(subs, addresses, fmt, i) + [Row(subs[i], address, instructions, pickupCell, fmt)]
  {
  }

  /** One step of the carried pickup cell. */
  lemma PickupCellStep(subs: seq<Submission>, fmt: Renderer, i: nat)
    requires i < |subs|
    ensures PickupCellAfter(subs[..i + 1], fmt) ==
      if Truthy(subs[i].pickupStreetaddress) then PickupLocation(subs[i], fmt)
      else PickupCellAfter(subs[..i], fmt)
  {
    assert subs[..i + 1][..i] == subs[..i];
  }

  /** The pickup part of one iteration: the name from the instructions' marker
      and, when the submission has a pickup street address, the new location
      cell; otherwise the cell carried from earlier rows is kept. */
  method UpdatePickupCell(s: Submission, fmt: Renderer, current: string) returns (cell: string)
    ensures cell == if Truthy(s.pickupStreetaddress) then PickupLocation(s, fmt) else current
  {
    cell := current;
    var pickup := PickupName(s.pickupExtrainstructions, s.pickupCity);
    if Truthy(s.pickupStreetaddress) {
      cell := pickup.0 + " — " + PickupTime(s, fmt) + " — " + s.pickupStreetaddress + ", "
        + s.pickupCity + ", " + s.pickupState + " " + s.pickupZipcode;
    }
  }

  /** The submission loop: one row per submission, in query order. The
      pickup cell of row k is the carried-over value after submissions 0..k. */
  method BuildRows(subs: seq<Submission>, addresses: seq<ParentAddress>, fmt: Renderer)
    returns (rows: seq<seq<string>>)
    ensures |rows| == |subs|
    ensures forall k :: 0 <= k < |subs| ==>
      var cells := MailingCells(addresses, subs[k].userid, fmt.apt);
      rows[k] == Row(subs[k], cells.0, cells.1, PickupCellAfter(subs[..k + 1], fmt), fmt)
  {
    var pickupCell := fmt.contactUsForPickup;
    rows := [];
    for i := 0 to |subs|
      invariant |rows| == i
      invariant pickupCell == PickupCellAfter(subs[..i], fmt)
      invariant rows == RowsOf(subs, addresses, fmt, i)
    {
      var s := subs[i];
      var address, instructions := LookupMailingAddress(addresses, s.userid, fmt.apt);
      PickupCellStep(subs, fmt, i);
      pickupCell := UpdatePickupCell(s, fmt, pickupCell);
      var row := Row(s, address, instructions, pickupCell, fmt);
      RowsOfStep(subs, addresses, fmt, i, address, instructions, pickupCell);
      rows := rows + [row];
    }
    RowsOfAt(subs, addresses, fmt, |subs|);
  }
}
