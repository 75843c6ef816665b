/**
 The do-not-call list of a campaign: adding one number, and importing many at once.
 */
module DoNotCall {
  import opened Options
  import opened Texts
  import opened CallListBuild

  datatype Entry = Entry(reason: string, addedBy: string, addedAt: int)

  /** The table, keyed by its unique constraint: campaign and phone number. */
  type Table = map<(nat, string), Entry>

  /** A CSV row; a field is absent when the row is shorter than the header. */
  datatype CsvRow = CsvRow(phone: Option<string>, reason: Option<string>)

  datatype ImportRow = ImportRow(phone: string, entry: Entry)

  datatype Counts = Counts(added: nat, skipped: nat, invalid: nat)

  // --- parsing one row ---

  function Strip(s: string): string {
    if s == "" then ""
    else if Blank(s[0]) then Strip(s[1..])
    else if Blank(s[|s| - 1]) then Strip(s[..|s| - 1])
    else s
  }

  /** What is stripped is exactly the blanks at both ends. */
  lemma {:induction false} StripCutsBlanks(s: string) returns (before: string, after: string)
    ensures s == before + Strip(s) + after && AllBlank(before + after)
    ensures Strip(s) != "" ==> !Blank(Strip(s)[0]) && !Blank(Strip(s)[|Strip(s)| - 1])
    decreases |s|
  {
    before, after := "", "";
    if s == "" {
    } else if Blank(s[0]) {
      before, after := StripCutsBlanks(s[1..]);
      before := [s[0]] + before;
    } else if Blank(s[|s| - 1]) {
      before, after := StripCutsBlanks(s[..|s| - 1]);
      after := after + [s[|s| - 1]];
    }
  }

  /** (reason or default).strip() or default */
  function ReasonOf(reason: Option<string>, defaultReason: string): string {
    var given := if reason.Some? && reason.value != "" then reason.value else defaultReason;
    if Strip(given) == "" then defaultReason else Strip(given)
  }

  /** The rows to insert: those whose stripped phone has 10 to 15 digits. */
  function Parsed(csv: seq<CsvRow>, addedBy: string, now: int, defaultReason: string): seq<ImportRow>
    requires forall row | row in csv :: row.phone.Some?
  {
    if csv == [] then []
    else
      var last := csv[|csv| - 1];
      var phone := Strip(last.phone.value);
      var before := Parsed(csv[..|csv| - 1], addedBy, now, defaultReason);
      if ValidPhone(phone) then before + [ImportRow(phone, Entry(ReasonOf(last.reason, defaultReason), addedBy, now))]
      else before
  }

  /** The row's phone, without blanks at both ends, has 10 to 15 digits. */
  predicate Usable(row: CsvRow) {
    row.phone.Some? && 10 <= |Strip(row.phone.value)| <= 15 &&
    forall i | 0 <= i < |Strip(row.phone.value)| :: Strip(row.phone.value)[i] in "0123456789"
  }

  /**
   The row's reason without blanks at both ends; the default as it is where only blanks
   were given, and without blanks at both ends where nothing was given and some is left.
   */
  predicate HasReason(row: CsvRow, reason: string, defaultReason: string) {
    if row.reason.Some? && Strip(row.reason.value) != "" then reason == Strip(row.reason.value)
    else if (row.reason.Some? && row.reason.value != "") || Strip(defaultReason) == "" then reason == defaultReason
    else reason == Strip(defaultReason)
  }

  function UsableRows(csv: seq<CsvRow>): seq<CsvRow> {
    if csv == [] then []
    else
      var before := UsableRows(csv[..|csv| - 1]);
      if Usable(csv[|csv| - 1]) then before + [csv[|csv| - 1]] else before
  }

  /** Row by row in order, exactly the usable rows are kept, each with its stripped phone and its reason. */
  lemma {:induction false} ParsedInColumns(csv: seq<CsvRow>, addedBy: string, now: int, defaultReason: string)
    requires forall row | row in csv :: row.phone.Some?
    ensures var rows := Parsed(csv, addedBy, now, defaultReason);
            |rows| == |UsableRows(csv)| &&
            forall k | 0 <= k < |rows| ::
              UsableRows(csv)[k].phone.Some? && rows[k].phone == Strip(UsableRows(csv)[k].phone.value) &&
              HasReason(UsableRows(csv)[k], rows[k].entry.reason, defaultReason) &&
              rows[k].entry.addedBy == addedBy && rows[k].entry.addedAt == now
  {
    if csv != [] {
      var init, last := csv[..|csv| - 1], csv[|csv| - 1];
      assert last in csv && forall row | row in init :: row in csv;
      ParsedInColumns(init, addedBy, now, defaultReason);
      ValidInCharacters(Strip(last.phone.value));
    }
  }

  // --- writing ---

  /** add_entry: an existing number stays as it is. */
  function AddEntry(table: Table, campaign: nat, phone: string, entry: Entry): Table {
    if (campaign, phone) in table then table else table[(campaign, phone) := entry]
  }

  /** One add_entry after the other. */
  function AddAll(table: Table, campaign: nat, rows: seq<ImportRow>): Table {
    if rows == [] then table
    else
      var last := rows[|rows| - 1];
      AddEntry(AddAll(table, campaign, rows[..|rows| - 1]), campaign, last.phone, last.entry)
  }

  /** The entry of the first row with this phone. */
  function FirstEntry(rows: seq<ImportRow>, phone: string): Entry
    requires exists row :: row in rows && row.phone == phone
  {
    if rows[0].phone == phone then rows[0].entry else FirstEntry(rows[1..], phone)
  }

  function NewPhones(table: Table, campaign: nat, rows: seq<ImportRow>): set<string> {
    set row | row in rows && (campaign, row.phone) !in table :: row.phone
  }

  /** INSERT ... ON CONFLICT DO NOTHING of many rows: new numbers get the entry of their first row. */
  function InsertMissing(table: Table, campaign: nat, rows: seq<ImportRow>): Table {
    table + map phone | phone in NewPhones(table, campaign, rows) :: (campaign, phone) := FirstEntry(rows, phone)
  }

  class Service {
    var table: Table

    constructor (table: Table)
      ensures this.table == table
    {
      this.table := table;
    }

    method Add(campaign: nat, phone: string, reason: string, addedBy: string, now: int) returns (entry: Entry)
      modifies this
      ensures table == AddEntry(old(table), campaign, phone, Entry(reason, addedBy, now))
      ensures (campaign, phone) in table && entry == table[(campaign, phone)]
      ensures (campaign, phone) in old(table) ==> table == old(table)
      ensures (campaign, phone) !in old(table) ==>
                table == old(table)[(campaign, phone) := entry] &&
                entry.reason == reason && entry.addedBy == addedBy && entry.addedAt == now
    {
      if (campaign, phone) in table {
        return table[(campaign, phone)];
      }
      entry := Entry(reason, addedBy, now);
      table := table[(campaign, phone) := entry];
    }

    /** Fails on a row without a phone field; otherwise every row is added, skipped or invalid. */
    method BulkImport(campaign: nat, csv: seq<CsvRow>, addedBy: string, now: int, defaultReason: string := "registry_import")
      returns (counts: Option<Counts>)
      modifies this
      ensures counts.None? <==> exists row :: row in csv && row.phone.None?
      ensures counts.None? ==> table == old(table)
      ensures counts.Some? ==>
                var rows := Parsed(csv, addedBy, now, defaultReason);
                table == AddAll(old(table), campaign, rows) &&
                counts.value.added == |NewPhones(old(table), campaign, rows)| &&
                counts.value.invalid == |csv| - |UsableRows(csv)| &&
                counts.value.added + counts.value.skipped + counts.value.invalid == |csv|
    {
      var rows: seq<ImportRow> := [];
      var invalid: nat := 0;
      for i := 0 to |csv|
        invariant forall row | row in csv[..i] :: row.phone.Some?
        invariant rows == Parsed(csv[..i], addedBy, now, defaultReason)
        invariant |rows| + invalid == i
      {
        var row := csv[i];
        assert csv[..i + 1][..i] == csv[..i] && csv[..i + 1] == csv[..i] + [row];
        if row.phone == None { return None; }
        var phone := Strip(row.phone.value);
        var reason := ReasonOf(row.reason, defaultReason);
        if !ValidPhone(phone) {
          invalid := invalid + 1;
          continue;
        }
        rows := rows + [ImportRow(phone, Entry(reason, addedBy, now))];
      }
      assert csv[..|csv|] == csv;
      ParsedInColumns(csv, addedBy, now, defaultReason);
      InsertMissingIsAddAll(table, campaign, rows);
      NewPhonesAtMostRows(table, campaign, rows);
      var added := |NewPhones(table, campaign, rows)|;
      if rows != [] {
        table := InsertMissing(table, campaign, rows);
      }
      counts := Some(Counts(added, |rows| - added, invalid));
    }
  }

  // --- one statement for many rows is one add after the other ---

  lemma {:induction false} FirstEntrySnoc(rows: seq<ImportRow>, last: ImportRow, phone: string)
    requires exists row :: row in rows + [last] && row.phone == phone
    ensures FirstEntry(rows + [last], phone) ==
            if exists row :: row in rows && row.phone == phone then FirstEntry(rows, phone) else last.entry
  {
    if rows == [] {
      assert rows + [last] == [last];
    } else {
      assert (rows + [last])[1..] == rows[1..] + [last];
      assert rows == [rows[0]] + rows[1..];
      if rows[0].phone != phone {
        var row :| row in rows + [last] && row.phone == phone;
        assert row in rows[1..] + [last];
        FirstEntrySnoc(rows[1..], last, phone);
      }
    }
  }

  predicate Mentions(rows: seq<ImportRow>, phone: string) {
    exists row | row in rows :: row.phone == phone
  }

  /** What adding one by one makes of each key. */
  lemma {:induction false} AddAllAt(table: Table, campaign: nat, rows: seq<ImportRow>, key: (nat, string))
    ensures key in AddAll(table, campaign, rows) <==> key in table || (key.0 == campaign && Mentions(rows, key.1))
    ensures key in AddAll(table, campaign, rows) ==>
              AddAll(table, campaign, rows)[key] == if key in table then table[key] else FirstEntry(rows, key.1)
  {
    if rows != [] {
      var init, last := rows[..|rows| - 1], rows[|rows| - 1];
      assert rows == init + [last];
      AddAllAt(table, campaign, init, key);
      if key.0 == campaign && Mentions(rows, key.1) {
        FirstEntrySnoc(init, last, key.1);
      }
    }
  }

  /**
   Importing many rows with one statement leaves the same table as adding them one
   by one: the first occurrence of a number wins and existing entries stay.
   */
  lemma InsertMissingIsAddAll(table: Table, campaign: nat, rows: seq<ImportRow>)
    ensures InsertMissing(table, campaign, rows) == AddAll(table, campaign, rows)
  {
    var inserted, added := InsertMissing(table, campaign, rows), AddAll(table, campaign, rows);
    forall key: (nat, string)
      ensures key in inserted <==> key in added
      ensures key in added ==> inserted[key] == added[key]
    {
      AddAllAt(table, campaign, rows, key);
      assert key in inserted <==> key in table || (key.0 == campaign && key.1 in NewPhones(table, campaign, rows));
    }
  }

  /** Whatever is imported, numbers that were listed keep their entry and other campaigns are not touched. */
  lemma {:induction false} ImportKeepsOthers(table: Table, campaign: nat, rows: seq<ImportRow>, key: (nat, string))
    requires key in table || key.0 != campaign
    ensures key in AddAll(table, campaign, rows) <==> key in table
    ensures key in table ==> AddAll(table, campaign, rows)[key] == table[key]
  {
    if rows != [] { ImportKeepsOthers(table, campaign, rows[..|rows| - 1], key); }
  }

  /** Importing the same rows again adds nothing. */
  lemma ImportAgainAddsNothing(table: Table, campaign: nat, rows: seq<ImportRow>)
    ensures NewPhones(AddAll(table, campaign, rows), campaign, rows) == {}
    ensures AddAll(AddAll(table, campaign, rows), campaign, rows) == AddAll(table, campaign, rows)
  {
    var once := AddAll(table, campaign, rows);
    InsertMissingIsAddAll(table, campaign, rows);
    InsertMissingIsAddAll(once, campaign, rows);
    forall row | row in rows ensures (campaign, row.phone) in once {
      assert (campaign, row.phone) in table || row.phone in NewPhones(table, campaign, rows);
    }
  }

  lemma {:induction false} NewPhonesAtMostRows(table: Table, campaign: nat, rows: seq<ImportRow>)
    ensures |NewPhones(table, campaign, rows)| <= |rows|
  {
    if rows == [] {
      assert NewPhones(table, campaign, rows) == {};
    } else {
      var init, last := rows[..|rows| - 1], rows[|rows| - 1];
      assert rows == init + [last];
      NewPhonesAtMostRows(table, campaign, init);
      assert NewPhones(table, campaign, rows)
          == NewPhones(table, campaign, init) + if (campaign, last.phone) in table then {} else {last.phone};
    }
  }
}
