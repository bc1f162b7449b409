/**
 * The summary statistics `main` prints after parsing: the number of events and
 * the number of distinct email and phone strings across all rows, obtained by
 * splitting each row's joined column on `"; "`.
 */
module Summary {
  import opened Wrappers
  import opened Text
  import opened Extract
  import opened Normalize

  datatype SummaryStats = SummaryStats(totalEvents: nat, uniqueEmails: nat, uniquePhones: nat)

  /** The tokens one row adds: none for an empty column, else its `"; "`-split pieces. */
  function TokensOf(joined: string): set<string>
  {
    if joined == "" then {} else set x | x in SplitList(joined)
  }

  /** The union of the tokens of every column value. */
  function TokenUnion(columns: seq<string>): set<string>
  {
    if columns == [] then {}
    else TokenUnion(columns[..|columns| - 1]) + TokensOf(columns[|columns| - 1])
  }

  function EmailColumn(rows: seq<Row>): seq<string>
  {
    seq(|rows|, i requires 0 <= i < |rows| => rows[i].allExtractedEmails)
  }

  function PhoneColumn(rows: seq<Row>): seq<string>
  {
    seq(|rows|, i requires 0 <= i < |rows| => rows[i].extractedPhoneNumbers)
  }

  /** A string is counted exactly when some non-empty column value splits to a piece equal to it. */
  lemma {:induction false} TokenUnionMembers(columns: seq<string>)
    ensures forall x :: x in TokenUnion(columns) <==>
              exists i :: 0 <= i < |columns| && columns[i] != "" && x in SplitList(columns[i])
  {
    if columns != [] {
      var n := |columns| - 1;
      var init := columns[..n];
      TokenUnionMembers(init);
      forall x ensures x in TokenUnion(columns) <==>
                       exists i :: 0 <= i < |columns| && columns[i] != "" && x in SplitList(columns[i])
      {
        if x in TokenUnion(init) {
          var i :| 0 <= i < n && init[i] != "" && x in SplitList(init[i]);
          assert columns[i] == init[i];
        }
        if exists i :: 0 <= i < |columns| && columns[i] != "" && x in SplitList(columns[i]) {
          var i :| 0 <= i < |columns| && columns[i] != "" && x in SplitList(columns[i]);
          if i < n {
            assert init[i] == columns[i];
          }
        }
      }
    }
  }

  /**
   * The tokens of a `"; "`-joined list whose entries have no separator in them:
   * nothing for `[]` and for `[""]` (the column is empty and skipped), and
   * otherwise exactly the entries, the empty string included.
   */
  lemma ContributedTokens(xs: seq<string>)
    requires forall k :: 0 <= k < |xs| ==> !HasListSep(xs[k])
    ensures TokensOf(Join(ListSep, xs)) == if xs == [] || xs == [""] then {} else set x | x in xs
  {
    JoinEmpty(ListSep, xs);
    if xs != [] && xs != [""] {
      SplitJoin(xs);
    }
  }

  /**
   * Counting an empty email: with entries free of the separator, `''` is
   * counted exactly when it is an entry and not the only one.
   */
  lemma EmptyTokenCounted(xs: seq<string>)
    requires forall k :: 0 <= k < |xs| ==> !HasListSep(xs[k])
    ensures "" in TokensOf(Join(ListSep, xs)) <==> "" in xs && xs != [""]
  {
    ContributedTokens(xs);
  }

  /**
   * Two rows whose email columns are `a` and `a; b` count two addresses, not
   * three.
   */
  lemma SharedEmailCountedOnce(a: string, b: string)
    requires a != "" && b != "" && a != b
    requires !HasListSep(a) && !HasListSep(b)
    ensures TokenUnion([a, Join(ListSep, [a, b])]) == {a, b}
    ensures |TokenUnion([a, Join(ListSep, [a, b])])| == 2
  {
    ContributedTokens([a]);
    ContributedTokens([a, b]);
    var cols := [a, Join(ListSep, [a, b])];
    assert cols[..1] == [a] && [a][..0] == [];
    assert TokenUnion([a]) == TokenUnion([]) + TokensOf(a);
    assert TokenUnion(cols) == TokenUnion(cols[..1]) + TokensOf(cols[1]);
    assert Join(ListSep, [a]) == a;
  }

  /**
   * One attendee without an email and one address found in the text: the
   * row's email column is the empty string and the address, so the summary
   * counts two "unique email addresses" for it, one of them `''`.
   */
  lemma MissingAttendeeEmailCounted(e: RawEvent, env: Env, found: string)
    requires e.attendees.Some? && |e.attendees.value| == 1 && e.attendees.value[0].email == None
    requires ExtractEmails(Some(CombinedText(e)), env.findall) == [found]
    requires found != "" && !HasListSep(found)
    requires ParseEvent(e, env).Success?
    ensures TokensOf(ParseEvent(e, env).value.allExtractedEmails) == {"", found}
  {
    var atts := e.attendees.value;
    assert AttendeeEmails(atts) == [""];
    var xs := [""] + [found];
    assert xs[..1] == [""] && xs[..1][..0] == [];
    assert Dedup([""]) == [""];
    assert EmailUnion(e, env) == ["", found];
    assert !HasListSep("");
    ContributedTokens(["", found]);
  }

  /**
   * The summary loop of `main`: the event count and the sizes of the sets of
   * email and phone tokens, skipping rows whose column is empty.
   */
  method Summarize(rows: seq<Row>) returns (stats: SummaryStats)
    ensures stats.totalEvents == |rows|
    ensures stats.uniqueEmails == |TokenUnion(EmailColumn(rows))|
    ensures stats.uniquePhones == |TokenUnion(PhoneColumn(rows))|
  {
    var allEmails: set<string> := {};
    var allPhones: set<string> := {};
    for i := 0 to |rows|
      invariant allEmails == TokenUnion(EmailColumn(rows)[..i])
      invariant allPhones == TokenUnion(PhoneColumn(rows)[..i])
    {
      assert EmailColumn(rows)[..i + 1][..i] == EmailColumn(rows)[..i];
      assert PhoneColumn(rows)[..i + 1][..i] == PhoneColumn(rows)[..i];
      var row := rows[i];
      if row.allExtractedEmails != "" {
        allEmails := allEmails + set x | x in SplitList(row.allExtractedEmails);
      }
      if row.extractedPhoneNumbers != "" {
        allPhones := allPhones + set x | x in SplitList(row.extractedPhoneNumbers);
      }
    }
    assert EmailColumn(rows)[..|rows|] == EmailColumn(rows);
    assert PhoneColumn(rows)[..|rows|] == PhoneColumn(rows);
    stats := SummaryStats(|rows|, |allEmails|, |allPhones|);
  }
}
