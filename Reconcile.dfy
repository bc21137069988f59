/**
 The reconciliation engine: normalising a fetched directory contact
 (formatContact), deciding update, delete or nothing for it against the
 export rows (compareContactToAD), and deciding which export rows need a
 create (checkNewStaff).
 */
module Reconcile {
  import opened Values
  import opened Source
  import opened Payloads
  import Partition

  /** A directory contact as formatContact reads it from a get-by-id reply:
      the five top-level fields and the embedded-data map. */
  datatype ContactDetails = ContactDetails(
    firstName: Value, lastName: Value, email: Value, phone: Value, extRef: Value,
    embedded: map<string, Value>)

  predicate HasEmbeddedKeys(c: ContactDetails)
  {
    "Title" in c.embedded && "Site" in c.embedded && "Description" in c.embedded
  }

  /** formatContact after a successful fetch: the embedded keys Title, Site
      and Description that are missing are added as "", and a `None` among
      the top-level values becomes "". */
  method FormatContact(fetched: ContactDetails) returns (details: ContactDetails)
    ensures HasEmbeddedKeys(details)
    ensures details.embedded.Keys == fetched.embedded.Keys + {"Title", "Site", "Description"}
    ensures forall key :: key in fetched.embedded ==> details.embedded[key] == fetched.embedded[key]
    ensures "Title" !in fetched.embedded ==> details.embedded["Title"] == Text("")
    ensures "Site" !in fetched.embedded ==> details.embedded["Site"] == Text("")
    ensures "Description" !in fetched.embedded ==> details.embedded["Description"] == Text("")
    ensures details.firstName == OrEmpty(fetched.firstName) && details.lastName == OrEmpty(fetched.lastName)
    ensures details.email == OrEmpty(fetched.email) && details.phone == OrEmpty(fetched.phone)
    ensures details.extRef == OrEmpty(fetched.extRef)
  {
    var embeddedData := fetched.embedded;
    if "Title" !in embeddedData {
      embeddedData := embeddedData["Title" := Text("")];
    }
    if "Site" !in embeddedData {
      embeddedData := embeddedData["Site" := Text("")];
    }
    if "Description" !in embeddedData {
      embeddedData := embeddedData["Description" := Text("")];
    }
    details := ContactDetails(OrEmpty(fetched.firstName), OrEmpty(fetched.lastName), OrEmpty(fetched.email),
                              OrEmpty(fetched.phone), OrEmpty(fetched.extRef), embeddedData);
  }

  /** What compareContactToAD issues for one contact. */
  datatype Action = Update(newDetails: seq<Value>) | Delete

  /** The row is the contact's counterpart: the contact's external reference
      equals the row's employee id converted to a string. */
  predicate Matches(c: ContactDetails, row: seq<Value>)
    requires IsStaffRow(row)
  {
    c.extRef == Text(ExtRef(row))
  }

  /** None of the seven compared fields differs (exact equality). */
  predicate SameFields(c: ContactDetails, row: seq<Value>)
    requires IsStaffRow(row) && HasEmbeddedKeys(c)
  {
    row[2] == c.firstName && row[1] == c.lastName && row[4] == c.email && row[6] == c.phone &&
    row[5] == c.embedded["Title"] && row[3] == c.embedded["Site"] && row[0] == c.embedded["Description"]
  }

  /** The details list compareContactToAD hands to updateContact. */
  function NewDetails(row: seq<Value>): seq<Value>
    requires IsStaffRow(row)
  {
    [row[2], row[1], row[4], row[6], Text(ExtRef(row)), row[5], row[3], row[0]]
  }

  predicate Found(c: ContactDetails, rows: seq<seq<Value>>)
    requires StaffRows(rows)
  {
    exists i :: 0 <= i < |rows| && Matches(c, rows[i])
  }

  /** The updates the scan over `rows` issues, up to the first matching row
      whose fields are all equal (where the scan returns). */
  function Scan(c: ContactDetails, rows: seq<seq<Value>>): seq<Action>
    requires StaffRows(rows) && HasEmbeddedKeys(c)
    decreases |rows|
  {
    if rows == [] then []
    else if Matches(c, rows[0]) then
      if SameFields(c, rows[0]) then [] else [Update(NewDetails(rows[0]))] + Scan(c, rows[1..])
    else Scan(c, rows[1..])
  }

  /** All that compareContactToAD issues: the updates of the scan, then one
      delete when no row matched. */
  function Decisions(c: ContactDetails, rows: seq<seq<Value>>): seq<Action>
    requires StaffRows(rows) && HasEmbeddedKeys(c)
  {
    Scan(c, rows) + if Found(c, rows) then [] else [Delete]
  }

  /** compareContactToAD: scans every row, issues an update for each matching
      row that differs, returns at the first matching row that does not, and
      issues a delete after the scan when nothing matched. */
  method CompareContactToAD(contactDetails: ContactDetails, adList: seq<seq<Value>>) returns (actions: seq<Action>)
    requires StaffRows(adList) && HasEmbeddedKeys(contactDetails)
    ensures actions == Decisions(contactDetails, adList)
  {
    var c := contactDetails;
    actions := [];
    var found := false;
    var i := 0;
    while i < |adList|
      invariant 0 <= i <= |adList|
      invariant found <==> exists j :: 0 <= j < i && Matches(c, adList[j])
      invariant Scan(c, adList) == actions + Scan(c, adList[i..])
    {
      var adEntry := adList[i];
      assert adList[i..][1..] == adList[i + 1..];
      var adExtRef := Str(adEntry[7]);
      if c.extRef == Text(adExtRef) {
        found := true;
        var newDetails := [adEntry[2], adEntry[1], adEntry[4], adEntry[6], Text(adExtRef), adEntry[5], adEntry[3], adEntry[0]];
        if adEntry[2] != c.firstName || adEntry[1] != c.lastName || adEntry[4] != c.email || adEntry[6] != c.phone
          || adEntry[5] != c.embedded["Title"] || adEntry[3] != c.embedded["Site"] || adEntry[0] != c.embedded["Description"]
        {
          actions := actions + [Update(newDetails)];
        } else {
          return;
        }
      }
      i := i + 1;
    }
    if !found {
      actions := actions + [Delete];
    }
  }

  /** The matching rows, in order. */
  function MatchingRows(c: ContactDetails, rows: seq<seq<Value>>): (r: seq<seq<Value>>)
    requires StaffRows(rows)
    ensures StaffRows(r)
    decreases |rows|
  {
    if rows == [] then []
    else (if Matches(c, rows[0]) then [rows[0]] else []) + MatchingRows(c, rows[1..])
  }

  /** One update per row, carrying that row's details. */
  function UpdatesFor(rows: seq<seq<Value>>): seq<Action>
    requires StaffRows(rows)
  {
    seq(|rows|, k requires 0 <= k < |rows| => Update(NewDetails(rows[k])))
  }

  /** The scan issues one update per matching row before a point `j` where
      no earlier matching row was equal, and `j` is either the end or a
      matching row that is equal. */
  lemma {:induction false} ScanUpTo(c: ContactDetails, rows: seq<seq<Value>>, j: nat)
    requires StaffRows(rows) && HasEmbeddedKeys(c) && j <= |rows|
    requires forall i :: 0 <= i < j ==> !(Matches(c, rows[i]) && SameFields(c, rows[i]))
    requires j < |rows| ==> Matches(c, rows[j]) && SameFields(c, rows[j])
    ensures Scan(c, rows) == UpdatesFor(MatchingRows(c, rows[..j]))
    decreases |rows|
  {
    if rows != [] && j > 0 {
      ScanUpTo(c, rows[1..], j - 1);
      assert rows[..j][0] == rows[0];
      assert rows[..j][1..] == rows[1..][..j - 1];
      var tail := MatchingRows(c, rows[1..][..j - 1]);
      if Matches(c, rows[0]) {
        assert UpdatesFor([rows[0]] + tail) == [Update(NewDetails(rows[0]))] + UpdatesFor(tail);
      }
    } else if rows != [] {
      assert rows[..j] == [];
    }
  }

  lemma {:induction false} ScanOnlyUpdates(c: ContactDetails, rows: seq<seq<Value>>)
    requires StaffRows(rows) && HasEmbeddedKeys(c)
    ensures Delete !in Scan(c, rows)
    ensures !Found(c, rows) ==> Scan(c, rows) == []
    decreases |rows|
  {
    if rows != [] {
      ScanOnlyUpdates(c, rows[1..]);
      if !Found(c, rows) {
        assert !Matches(c, rows[0]);
        forall i | 0 <= i < |rows[1..]|
          ensures !Matches(c, rows[1..][i])
        {
          assert rows[1..][i] == rows[i + 1];
        }
      }
    }
  }

  /** A contact no row matches gets exactly one delete and no update. */
  lemma OrphanDeleted(c: ContactDetails, rows: seq<seq<Value>>)
    requires StaffRows(rows) && HasEmbeddedKeys(c) && !Found(c, rows)
    ensures Decisions(c, rows) == [Delete]
  {
    ScanOnlyUpdates(c, rows);
  }

  /** A delete is issued if and only if no row matches. */
  lemma DeleteIffOrphan(c: ContactDetails, rows: seq<seq<Value>>)
    requires StaffRows(rows) && HasEmbeddedKeys(c)
    ensures Delete in Decisions(c, rows) <==> !Found(c, rows)
  {
    ScanOnlyUpdates(c, rows);
  }

  /** With a first equal matching row at `j`: one update for each matching
      row before `j`, carrying that row's details, and nothing else. */
  lemma StopsAtFirstEqualRow(c: ContactDetails, rows: seq<seq<Value>>, j: nat)
    requires StaffRows(rows) && HasEmbeddedKeys(c) && j < |rows|
    requires Matches(c, rows[j]) && SameFields(c, rows[j])
    requires forall i :: 0 <= i < j ==> !(Matches(c, rows[i]) && SameFields(c, rows[i]))
    ensures Decisions(c, rows) == UpdatesFor(MatchingRows(c, rows[..j]))
  {
    ScanUpTo(c, rows, j);
  }

  /** With matching rows but no equal one: one update per matching row, in
      order, and no delete (the scan does not stop at the first update). */
  lemma UpdatesEveryMatch(c: ContactDetails, rows: seq<seq<Value>>)
    requires StaffRows(rows) && HasEmbeddedKeys(c) && Found(c, rows)
    requires forall i :: 0 <= i < |rows| ==> !(Matches(c, rows[i]) && SameFields(c, rows[i]))
    ensures Decisions(c, rows) == UpdatesFor(MatchingRows(c, rows))
  {
    ScanUpTo(c, rows, |rows|);
    assert rows[..|rows|] == rows;
  }

  /** A contact whose external reference is blank (a `None` normalised to "")
      is deleted whenever every row has an employee id. */
  lemma BlankExtRefDeleted(c: ContactDetails, rows: seq<seq<Value>>)
    requires StaffRows(rows) && HasEmbeddedKeys(c) && c.extRef == Text("")
    requires forall i :: 0 <= i < |rows| ==> ExtRef(rows[i]) != ""
    ensures Decisions(c, rows) == [Delete]
  {
    OrphanDeleted(c, rows);
  }

  /** A single export row, equal to the contact, gives no action; the same
      row with only the phone changed gives exactly one update carrying all
      of the row's fields. */
  lemma SingleRowOutcomes(c: ContactDetails, row: seq<Value>, newPhone: Value)
    requires IsStaffRow(row) && HasEmbeddedKeys(c) && Matches(c, row) && SameFields(c, row)
    requires newPhone != row[6]
    ensures Decisions(c, [row]) == []
    ensures Decisions(c, [row[6 := newPhone]]) == [Update(NewDetails(row[6 := newPhone]))]
  {
    var changed := row[6 := newPhone];
    assert [row][1..] == [] && [changed][1..] == [];
    assert Found(c, [row]) by { assert Matches(c, [row][0]); }
    assert Found(c, [changed]) by { assert Matches(c, [changed][0]); }
    assert Matches(c, changed) && !SameFields(c, changed);
    assert Scan(c, [changed]) == [Update(NewDetails(changed))] + Scan(c, []);
  }

  /** The details updateContact sends for a row name the same fields with
      the same values as the details createContact sends for that row. */
  lemma UpdateSendsCreateFields(row: seq<Value>)
    requires IsStaffRow(row)
    ensures UpdatePayload(NewDetails(row)) == CreatePayload(row)
  {
  }

  /** What formatContact reads back once the directory holds a payload:
      the sent strings as its top-level fields and the three embedded
      values replaced (an assumption about the remote service). */
  function Refetched(c: ContactDetails, p: Payload): (r: ContactDetails)
    requires HasEmbeddedKeys(c)
    ensures HasEmbeddedKeys(r)
  {
    ContactDetails(Text(p.firstName), Text(p.lastName), Text(p.email), Text(p.phone), Text(p.extRef),
                   c.embedded["Title" := p.title]["Site" := p.site]["Description" := p.description])
  }

  /** Reconciliation is idempotent for a contact with exactly one matching
      row of string cells (as the delimited reader provides): the first pass
      issues at most that row's update, and once the directory holds it the
      second pass issues nothing. */
  lemma SecondPassNoOp(c: ContactDetails, rows: seq<seq<Value>>, j: nat)
    requires StaffRows(rows) && HasEmbeddedKeys(c) && j < |rows|
    requires Matches(c, rows[j]) && AllText(rows[j])
    requires forall i :: 0 <= i < |rows| && i != j ==> !Matches(c, rows[i])
    ensures Decisions(c, rows) == [] || Decisions(c, rows) == [Update(NewDetails(rows[j]))]
    ensures Decisions(Refetched(c, UpdatePayload(NewDetails(rows[j]))), rows) == []
  {
    var row := rows[j];
    assert Found(c, rows);
    assert rows[..j + 1][..j] == rows[..j];
    NoMatchBefore(c, rows, j);
    if SameFields(c, row) {
      StopsAtFirstEqualRow(c, rows, j);
    } else {
      UpdatesEveryMatch(c, rows);
      OnlyMatchIsJ(c, rows, j);
    }
    var c' := Refetched(c, UpdatePayload(NewDetails(row)));
    assert row[0].Text? && row[1].Text? && row[2].Text? && row[4].Text? && row[6].Text?;
    assert Matches(c', row) && SameFields(c', row);
    forall i | 0 <= i < j
      ensures !(Matches(c', rows[i]) && SameFields(c', rows[i]))
    {
      assert !Matches(c, rows[i]);
    }
    StopsAtFirstEqualRow(c', rows, j);
    NoMatchBefore(c', rows, j);
  }

  lemma {:induction false} NoMatchBefore(c: ContactDetails, rows: seq<seq<Value>>, j: nat)
    requires StaffRows(rows) && j <= |rows|
    requires forall i :: 0 <= i < j ==> !Matches(c, rows[i])
    ensures MatchingRows(c, rows[..j]) == []
    decreases j
  {
    if j > 0 {
      assert rows[..j][1..] == rows[1..][..j - 1];
      NoMatchBefore(c, rows[1..], j - 1);
    }
  }

  lemma {:induction false} OnlyMatchIsJ(c: ContactDetails, rows: seq<seq<Value>>, j: nat)
    requires StaffRows(rows) && j < |rows| && Matches(c, rows[j])
    requires forall i :: 0 <= i < |rows| && i != j ==> !Matches(c, rows[i])
    ensures MatchingRows(c, rows) == [rows[j]]
    decreases |rows|
  {
    if j == 0 {
      NoMatchBefore(c, rows[1..], |rows| - 1);
      assert rows[1..][..|rows| - 1] == rows[1..];
    } else {
      OnlyMatchIsJ(c, rows[1..], j - 1);
    }
  }

  /** With two rows sharing an employee id and differing in phone, the scan
      updates the contact twice; the directory then holds the second row,
      and the next pass updates it again to the first: not idempotent. */
  lemma DuplicateExtRefNotIdempotent(c: ContactDetails, first: seq<Value>, second: seq<Value>)
    requires IsStaffRow(first) && IsStaffRow(second) && HasEmbeddedKeys(c)
    requires AllText(second) && Matches(c, first) && ExtRef(second) == ExtRef(first)
    requires second == first[6 := second[6]] && second[6] != first[6]
    requires !SameFields(c, first) && !SameFields(c, second)
    ensures Decisions(c, [first, second]) == [Update(NewDetails(first)), Update(NewDetails(second))]
    ensures Decisions(Refetched(c, UpdatePayload(NewDetails(second))), [first, second]) == [Update(NewDetails(first))]
  {
    var rows := [first, second];
    assert rows[1..] == [second] && rows[1..][1..] == [];
    assert Found(c, rows) by { assert Matches(c, rows[0]); }
    assert Matches(c, second);
    assert Scan(c, [second]) == [Update(NewDetails(second))] + Scan(c, []);
    assert Scan(c, rows) == [Update(NewDetails(first))] + Scan(c, [second]);
    var c' := Refetched(c, UpdatePayload(NewDetails(second)));
    assert second[0].Text? && second[1].Text? && second[2].Text? && second[4].Text? && second[6].Text?;
    assert Matches(c', second) && SameFields(c', second);
    assert Matches(c', first) && !SameFields(c', first);
    assert Found(c', rows) by { assert Matches(c', rows[0]); }
    assert Scan(c', [second]) == [];
    assert Scan(c', rows) == [Update(NewDetails(first))] + Scan(c', [second]);
  }

  /** checkNewStaff's test: the employee id is neither blank nor among the
      directory's external references. */
  predicate NeedsCreate(row: seq<Value>, qExtRefs: seq<Value>)
    requires IsStaffRow(row)
  {
    Text(ExtRef(row)) !in qExtRefs && ExtRef(row) != ""
  }

  /** The details list checkNewStaff hands to createContact. */
  function StaffDetails(row: seq<Value>): seq<Value>
    requires IsStaffRow(row)
  {
    [row[0], row[1], row[2], row[3], row[4], row[5], row[6], Text(ExtRef(row))]
  }

  /** The created details are the row's first eight cells in order, the
      employee id as a string; createContact sends the same body for them as
      for the row. */
  lemma StaffDetailsLayout(row: seq<Value>)
    requires IsStaffRow(row)
    ensures IsStaffRow(StaffDetails(row))
    ensures StaffDetails(row)[..7] == row[..7] && StaffDetails(row)[7] == Text(ExtRef(row))
    ensures CreatePayload(StaffDetails(row)) == CreatePayload(row)
  {
  }

  /** The details of every qualifying row, in row order. */
  function NewStaff(chunk: seq<seq<Value>>, qExtRefs: seq<Value>): seq<seq<Value>>
    requires StaffRows(chunk)
    decreases |chunk|
  {
    if chunk == [] then []
    else (if NeedsCreate(chunk[0], qExtRefs) then [StaffDetails(chunk[0])] else []) + NewStaff(chunk[1..], qExtRefs)
  }

  /** checkNewStaff: one create per row of the chunk that needs one. */
  method CheckNewStaff(chunk: seq<seq<Value>>, qExtRefs: seq<Value>) returns (creates: seq<seq<Value>>)
    requires StaffRows(chunk)
    ensures creates == NewStaff(chunk, qExtRefs)
  {
    creates := [];
    var i := 0;
    while i < |chunk|
      invariant 0 <= i <= |chunk|
      invariant NewStaff(chunk, qExtRefs) == creates + NewStaff(chunk[i..], qExtRefs)
    {
      var adEntry := chunk[i];
      assert chunk[i..][1..] == chunk[i + 1..];
      var adExtRef := Str(adEntry[7]);
      if Text(adExtRef) !in qExtRefs && adExtRef != "" {
        creates := creates + [[adEntry[0], adEntry[1], adEntry[2], adEntry[3], adEntry[4], adEntry[5], adEntry[6], Text(adExtRef)]];
      }
      i := i + 1;
    }
  }

  /** Details are created exactly for the rows that need a create: never for
      a blank employee id, never for one the directory already lists. */
  lemma {:induction false} NewStaffExactly(chunk: seq<seq<Value>>, qExtRefs: seq<Value>)
    requires StaffRows(chunk)
    ensures forall d :: d in NewStaff(chunk, qExtRefs) <==>
      exists i :: 0 <= i < |chunk| && NeedsCreate(chunk[i], qExtRefs) && d == StaffDetails(chunk[i])
    decreases |chunk|
  {
    if chunk != [] {
      NewStaffExactly(chunk[1..], qExtRefs);
      forall d | (exists i :: 0 <= i < |chunk| && NeedsCreate(chunk[i], qExtRefs) && d == StaffDetails(chunk[i]))
        ensures d in NewStaff(chunk, qExtRefs)
      {
        var i :| 0 <= i < |chunk| && NeedsCreate(chunk[i], qExtRefs) && d == StaffDetails(chunk[i]);
        if i > 0 {
          assert chunk[1..][i - 1] == chunk[i];
        }
      }
    }
  }

  lemma {:induction false} NewStaffAppend(xs: seq<seq<Value>>, ys: seq<seq<Value>>, qExtRefs: seq<Value>)
    requires StaffRows(xs) && StaffRows(ys)
    ensures StaffRows(xs + ys)
    ensures NewStaff(xs + ys, qExtRefs) == NewStaff(xs, qExtRefs) + NewStaff(ys, qExtRefs)
    decreases |xs|
  {
    if xs != [] {
      assert (xs + ys)[1..] == xs[1..] + ys;
      NewStaffAppend(xs[1..], ys, qExtRefs);
    } else {
      assert xs + ys == ys;
    }
  }

  /** The creates of each chunk, one list per chunk. */
  function NewStaffPerChunk(chunks: seq<seq<seq<Value>>>, qExtRefs: seq<Value>): (r: seq<seq<seq<Value>>>)
    requires forall k :: 0 <= k < |chunks| ==> StaffRows(chunks[k])
    ensures |r| == |chunks|
  {
    seq(|chunks|, k requires 0 <= k < |chunks| => NewStaff(chunks[k], qExtRefs))
  }

  lemma {:induction false} NewStaffOverChunks(chunks: seq<seq<seq<Value>>>, qExtRefs: seq<Value>)
    requires forall k :: 0 <= k < |chunks| ==> StaffRows(chunks[k])
    ensures StaffRows(Partition.Flatten(chunks))
    ensures Partition.Flatten(NewStaffPerChunk(chunks, qExtRefs)) == NewStaff(Partition.Flatten(chunks), qExtRefs)
    decreases |chunks|
  {
    if chunks != [] {
      var init, last := chunks[..|chunks| - 1], chunks[|chunks| - 1];
      NewStaffOverChunks(init, qExtRefs);
      NewStaffAppend(Partition.Flatten(init), last, qExtRefs);
      assert NewStaffPerChunk(chunks, qExtRefs)[..|chunks| - 1] == NewStaffPerChunk(init, qExtRefs);
    }
  }

  /** Running checkNewStaff over the slices of `split(adList, n)`, one after
      another, issues the same creates in the same order as one run over the
      whole list. */
  lemma PassBOverSplit(adList: seq<seq<Value>>, qExtRefs: seq<Value>, n: nat)
    requires StaffRows(adList) && n > 0
    ensures forall k :: 0 <= k < n ==> StaffRows(Partition.Split(adList, n)[k])
    ensures Partition.Flatten(NewStaffPerChunk(Partition.Split(adList, n), qExtRefs)) == NewStaff(adList, qExtRefs)
  {
    var chunks := Partition.Split(adList, n);
    forall k | 0 <= k < n
      ensures StaffRows(chunks[k])
    {
      forall t | 0 <= t < |chunks[k]|
        ensures IsStaffRow(chunks[k][t])
      {
        Partition.SplitAt(adList, n, k, t);
      }
    }
    NewStaffOverChunks(chunks, qExtRefs);
    Partition.SplitCovers(adList, n);
  }
}
