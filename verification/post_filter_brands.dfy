/**
 * The brand filter: every row of the ingredient filter's CSV is counted; a
 * row is kept when its `brandOwner`, with surrounding white space stripped,
 * is exactly (case and all) one of a fixed list of retailer brand owners.
 * Kept rows are written unchanged under the input's own header, which is
 * written once, before the first kept row.
 */
module BrandFilter {
  import opened Wrappers
  import opened Ascii
  import opened Dicts

  /** A row as `csv.DictReader` yields it: field name to cell text. */
  type Row = Dict<string>

  /** What a `csv.DictWriter` has written: its header row and the data rows after it. */
  datatype Sheet = Sheet(header: seq<string>, rows: seq<seq<string>>)

  /** The brand owners to keep, verbatim, including several spellings of one company. */
  const BrandOwners: seq<string> := [
    "The Kroger Co.", "HY-VEE", "HY-VEE FISH MARKET", "KROGER", "PUBLIX",
    "TRADER JOE'S", "AHOLD", "Whole Foods Market, Inc.", "Wal-Mart Stores, Inc.",
    "WHOLE FOODS MARKET", "TRADER JACQUES", "WHOLE FOODS MARKETS", "TRADER GIOTTO'S",
    "TRADER MING'S", "TRADER JOSE'S", "Ahold Usa, Inc.", "Giant Eagle, Inc.",
    "Hy-Vee, Inc.", "WAL-MART", "GIANT EAGLE MARKET DISTRICT",
    "Publix Super Markets, Inc.", "DOLLAR GENERAL CORPORATION", "PUBLIX BAKERY",
    "Aldi Inc.", "Ahold USA, Inc.", "Family Dollar Stores Inc.", "Costco Companies Inc.",
    "Dollar Tree Stores, Inc.", "Walgreens Co.", "CVS Pharmacy, Inc.",
    "Piggly Wiggly Company", "ALDI", "365 WHOLE FOODS MARKET", "Wal-Mart United States",
    "The Kroger Company", "365 by Whole Foods Market Services", "WHOLE FOODS MARKET - PGC",
    "Piggly Wiggly North Carolina, LLC", "Kroger Corporate Brands", "WALMART",
    "Albertsons Companies"
  ]

  /** The same names as a set, for the lookup; no case normalisation takes place. */
  const BrandOwnerSet: set<string> := set b | b in BrandOwners

  /** `row.get('brandOwner', '').strip()`. */
  function BrandOwnerOf(row: Row): string {
    Strip(Get(row, "brandOwner", ""))
  }

  /** The row is kept: its stripped brand owner is in the allowlist `allow` (the script's is `BrandOwnerSet`). */
  predicate Keep(allow: set<string>, row: Row) {
    BrandOwnerOf(row) in allow
  }

  /** The rows kept, in input order. */
  function KeptRows(allow: set<string>, rows: seq<Row>): (r: seq<Row>)
    ensures |r| <= |rows|
  {
    if rows == [] then []
    else
      var init := KeptRows(allow, rows[..|rows| - 1]);
      var last := rows[|rows| - 1];
      if Keep(allow, last) then init + [last] else init
  }

  /** The cells written for `kept`, each row laid out under `header`. */
  function Cells(kept: seq<Row>, header: seq<string>): (r: seq<seq<string>>)
    ensures |r| == |kept|
  {
    seq(|kept|, j requires 0 <= j < |kept| => Project(kept[j], header, ""))
  }

  /**
   * The CSV the loop writes: nothing at all if no row is kept; otherwise the
   * input header, followed by the kept rows in order.
   */
  function Written(allow: set<string>, fieldnames: seq<string>, rows: seq<Row>): Option<Sheet> {
    var kept := KeptRows(allow, rows);
    if kept == [] then None else Some(Sheet(fieldnames, Cells(kept, fieldnames)))
  }

  /**
   * The main loop: counts every row, counts and writes the rows whose
   * stripped brand owner is in `allow`, creating the writer (and writing the
   * input header) at the first of them.
   */
  method FilterRows(allow: set<string>, fieldnames: seq<string>, rows: seq<Row>)
    returns (countTotal: nat, countFiltered: nat, writer: Option<Sheet>)
    ensures countTotal == |rows|
    ensures countFiltered == |KeptRows(allow, rows)| <= countTotal
    ensures writer == Written(allow, fieldnames, rows)
  {
    writer := None;
    countTotal, countFiltered := 0, 0;
    for n := 0 to |rows|
      invariant countTotal == n
      invariant countFiltered == |KeptRows(allow, rows[..n])|
      invariant writer == Written(allow, fieldnames, rows[..n])
    {
      var row := rows[n];
      assert rows[..n + 1] == rows[..n] + [row];
      countTotal := countTotal + 1;
      var brandOwner := Strip(Get(row, "brandOwner", ""));
      KeptStep(allow, rows[..n], row);

      if brandOwner in allow {
        WrittenAppend(allow, fieldnames, rows[..n], row);
        countFiltered := countFiltered + 1;
        if writer.None? {
          writer := Some(Sheet(fieldnames, []));
        }
        writer := Some(writer.value.(rows := writer.value.rows + [Project(row, writer.value.header, "")]));
      }
    }
    assert rows[..|rows|] == rows;
  }

  /**
   * The script: the loop over the rows with the listed brand owners as the
   * allowlist. A writer exists exactly when some row was kept, and it holds
   * the input header and one row per kept row.
   */
  method FilterBrands(fieldnames: seq<string>, rows: seq<Row>)
    returns (countTotal: nat, countFiltered: nat, writer: Option<Sheet>)
    ensures countTotal == |rows|
    ensures countFiltered == |KeptRows(BrandOwnerSet, rows)| <= countTotal
    ensures writer == Written(BrandOwnerSet, fieldnames, rows)
    ensures writer.None? <==> countFiltered == 0
    ensures writer.Some? ==> writer.value.header == fieldnames && |writer.value.rows| == countFiltered
  {
    countTotal, countFiltered, writer := FilterRows(BrandOwnerSet, fieldnames, rows);
  }

  lemma KeptStep(allow: set<string>, rows: seq<Row>, row: Row)
    ensures KeptRows(allow, rows + [row]) == if Keep(allow, row) then KeptRows(allow, rows) + [row] else KeptRows(allow, rows)
  {
    assert (rows + [row])[..|rows|] == rows;
  }

  lemma CellsAppend(kept: seq<Row>, row: Row, header: seq<string>)
    ensures Cells(kept + [row], header) == Cells(kept, header) + [Project(row, header, "")]
  {
  }

  /** One more kept row adds its cells under the input header. */
  lemma WrittenAppend(allow: set<string>, fieldnames: seq<string>, rows: seq<Row>, row: Row)
    requires Keep(allow, row)
    ensures Written(allow, fieldnames, rows + [row]) ==
      Some(Sheet(fieldnames, (if KeptRows(allow, rows) == [] then [] else Written(allow, fieldnames, rows).value.rows) + [Project(row, fieldnames, "")]))
  {
    KeptStep(allow, rows, row);
    CellsAppend(KeptRows(allow, rows), row, fieldnames);
  }

  // ---------------------------------------------------------------------------
  // The allowlist
  // ---------------------------------------------------------------------------

  /** The set holds exactly the names of the list. */
  lemma SetIsList(s: string)
    ensures s in BrandOwnerSet <==> exists k :: 0 <= k < |BrandOwners| && BrandOwners[k] == s
  {
  }

  /** No listed name ends in white space. */
  lemma ListedNameFinal(k: nat)
    requires k < |BrandOwners| && BrandOwners[k] != []
    ensures !IsSpace(BrandOwners[k][|BrandOwners[k]| - 1])
  {
  }

  /** Every listed name starts with a capital letter or a digit. */
  lemma ListedNameInitial(k: nat)
    requires k < |BrandOwners|
    ensures BrandOwners[k] != [] && ('A' <= BrandOwners[k][0] <= 'Z' || '0' <= BrandOwners[k][0] <= '9')
  {
  }

  /** A name with no white space around it that starts with a capital letter or a digit. */
  predicate PlainName(s: string) {
    Trimmed(s) && ('A' <= s[0] <= 'Z' || '0' <= s[0] <= '9')
  }

  /** Every name of `names` is plain. */
  predicate AllPlain(names: seq<string>) {
    names == [] || (PlainName(names[0]) && AllPlain(names[1..]))
  }

  lemma {:induction false} ListedSuffixPlain(k: nat)
    requires k <= |BrandOwners|
    ensures AllPlain(BrandOwners[k..])
    decreases |BrandOwners| - k
  {
    if k < |BrandOwners| {
      ListedSuffixPlain(k + 1);
      ListedNameInitial(k);
      ListedNameFinal(k);
      assert BrandOwners[k..][1..] == BrandOwners[k + 1..];
    }
  }

  lemma {:induction false} AllPlainMember(names: seq<string>, s: string)
    requires AllPlain(names) && s in names
    ensures PlainName(s)
  {
    if names[0] != s {
      assert s in names[1..];
      AllPlainMember(names[1..], s);
    }
  }

  /** Every name of the set is plain. */
  lemma ListedNameInSet(s: string)
    requires s in BrandOwnerSet
    ensures PlainName(s)
  {
    ListedSuffixPlain(0);
    AllPlainMember(BrandOwners, s);
  }

  /** Every name in the set is non-empty and trimmed. */
  lemma BrandOwnerSetTrimmed()
    ensures forall s :: s in BrandOwnerSet ==> Trimmed(s)
  {
    forall s | s in BrandOwnerSet ensures Trimmed(s) {
      ListedNameInSet(s);
    }
  }

  /**
   * With an allowlist of trimmed, non-empty names, a row is kept exactly when
   * its brand owner is a listed name with nothing but white space around it.
   */
  lemma KeepIffPaddedName(allow: set<string>, row: Row)
    requires forall s :: s in allow ==> Trimmed(s)
    ensures Keep(allow, row) <==> PaddedNameIn(Get(row, "brandOwner", ""), allow)
  {
    StripInIffPadded(Get(row, "brandOwner", ""), allow);
  }

  /** The script's own allowlist: a row is kept exactly when its brand owner is a listed name padded with white space. */
  lemma KeepIffPaddedListedName(row: Row)
    ensures Keep(BrandOwnerSet, row) <==> PaddedNameIn(Get(row, "brandOwner", ""), BrandOwnerSet)
  {
    BrandOwnerSetTrimmed();
    KeepIffPaddedName(BrandOwnerSet, row);
  }

  /** A missing `brandOwner` reads as the empty text. */
  lemma MissingOwnerIsEmpty(row: Row)
    requires "brandOwner" !in Keys(row)
    ensures Get(row, "brandOwner", "") == ""
  {
    LookupFindsKeys(row, "brandOwner");
  }

  /** A row whose brand owner is missing or blank is never kept, since no listed name is empty. */
  lemma BlankOwnerNeverKept(row: Row)
    requires "brandOwner" !in Keys(row) || AllSpace(Get(row, "brandOwner", ""))
    ensures !Keep(BrandOwnerSet, row)
  {
    if "brandOwner" !in Keys(row) {
      MissingOwnerIsEmpty(row);
    }
    StripEmptyIffBlank(Get(row, "brandOwner", ""));
    if Keep(BrandOwnerSet, row) {
      ListedNameInSet(BrandOwnerOf(row));
    }
  }

  /**
   * Matching is case-sensitive: a brand owner that, once stripped, starts
   * with a lower-case letter is never kept, since every listed name starts
   * with a capital or a digit.
   */
  lemma LowerCaseOwnerNeverKept(row: Row)
    requires BrandOwnerOf(row) != [] && 'a' <= BrandOwnerOf(row)[0] <= 'z'
    ensures !Keep(BrandOwnerSet, row)
  {
    if Keep(BrandOwnerSet, row) {
      ListedNameInSet(BrandOwnerOf(row));
    }
  }

  /** The brand owner of a one-field row is its only value, stripped. */
  lemma OwnerOfOneFieldRow(owner: string)
    ensures BrandOwnerOf([("brandOwner", owner)]) == Strip(owner)
  {
  }

  lemma KrogerIsListed()
    ensures "KROGER" in BrandOwnerSet
  {
    assert BrandOwners[3] == "KROGER";
  }

  /** `KROGER` is kept. */
  lemma KrogerKept()
    ensures Keep(BrandOwnerSet, [("brandOwner", "KROGER")])
  {
    KrogerIsListed();
    OwnerOfOneFieldRow("KROGER");
    StripOfTrimmed("KROGER");
  }

  /** ` KROGER ` is kept too: the spaces around it are stripped before the lookup. */
  lemma PaddedKrogerKept()
    ensures Keep(BrandOwnerSet, [("brandOwner", " KROGER ")])
  {
    KrogerIsListed();
    OwnerOfOneFieldRow(" KROGER ");
    PaddedKroger();
  }

  lemma PaddedKroger()
    ensures Strip(" KROGER ") == "KROGER"
  {
    assert " KROGER " == " " + "KROGER" + " ";
    StripPadded(" ", "KROGER", " ");
  }

  /** `kroger` is not kept: no case normalisation takes place. */
  lemma LowerKrogerNotKept()
    ensures !Keep(BrandOwnerSet, [("brandOwner", "kroger")])
  {
    OwnerOfOneFieldRow("kroger");
    StripOfTrimmed("kroger");
    LowerCaseOwnerNeverKept([("brandOwner", "kroger")]);
  }

  // ---------------------------------------------------------------------------
  // What the written CSV is, stated without the loop
  // ---------------------------------------------------------------------------

  /** KeptRows is a filter: it distributes over concatenation. */
  lemma {:induction false} KeptAppend(allow: set<string>, a: seq<Row>, b: seq<Row>)
    ensures KeptRows(allow, a + b) == KeptRows(allow, a) + KeptRows(allow, b)
  {
    if b == [] {
      assert a + b == a;
    } else {
      var b' := b[..|b| - 1];
      assert a + b == (a + b') + [b[|b| - 1]];
      assert b == b' + [b[|b| - 1]];
      KeptStep(allow, a + b', b[|b| - 1]);
      KeptStep(allow, b', b[|b| - 1]);
      KeptAppend(allow, a, b');
    }
  }

  /** Every row written is a kept input row; every kept input row is written. */
  lemma {:induction false} KeptMembers(allow: set<string>, rows: seq<Row>)
    ensures forall x :: x in KeptRows(allow, rows) <==> x in rows && Keep(allow, x)
  {
    if rows != [] {
      var init := rows[..|rows| - 1];
      assert rows == init + [rows[|rows| - 1]];
      KeptStep(allow, init, rows[|rows| - 1]);
      KeptMembers(allow, init);
    }
  }

  /** The header written is the input header verbatim, and it is written exactly when some row is kept. */
  lemma HeaderIsInputHeader(allow: set<string>, fieldnames: seq<string>, rows: seq<Row>)
    ensures Written(allow, fieldnames, rows).Some? <==> exists j :: 0 <= j < |rows| && Keep(allow, rows[j])
    ensures Written(allow, fieldnames, rows).Some? ==> Written(allow, fieldnames, rows).value.header == fieldnames
  {
    KeptMembers(allow, rows);
    if Written(allow, fieldnames, rows).Some? {
      var x := KeptRows(allow, rows)[0];
      assert x in KeptRows(allow, rows);
    } else if exists j :: 0 <= j < |rows| && Keep(allow, rows[j]) {
      var j :| 0 <= j < |rows| && Keep(allow, rows[j]);
      assert rows[j] in rows;
    }
  }

  /**
   * A kept row whose keys are the input header, as `csv.DictReader` makes
   * them, is written unchanged: its own values, in order, the brand owner
   * as it was before stripping.
   */
  lemma KeptRowUnchanged(allow: set<string>, fieldnames: seq<string>, rows: seq<Row>, r: nat)
    requires Distinct(fieldnames)
    requires r < |KeptRows(allow, rows)| && Keys(KeptRows(allow, rows)[r]) == fieldnames
    ensures Written(allow, fieldnames, rows).Some?
    ensures Written(allow, fieldnames, rows).value.rows[r] == Values(KeptRows(allow, rows)[r])
  {
    var row := KeptRows(allow, rows)[r];
    assert Written(allow, fieldnames, rows).value.rows[r] == Project(row, fieldnames, "");
    ProjectOwnKeys(row, "");
  }

  /** The brand owner of a row with an ingredients field and a brand owner field is the latter, stripped. */
  lemma OwnerOfTwoFieldRow(ingredients: string, owner: string)
    ensures BrandOwnerOf([("ingredients", ingredients), ("brandOwner", owner)]) == Strip(owner)
  {
    var d := [("ingredients", ingredients), ("brandOwner", owner)];
    assert d[0].0 != "brandOwner";
    assert d[1..] == [("brandOwner", owner)];
    assert Lookup(d[1..], "brandOwner") == Some(owner);
  }

  /** The only listed name of seven characters is `WALMART`. */
  lemma SevenLongIsWalmart(k: nat)
    requires k < |BrandOwners|
    ensures |BrandOwners[k]| == 7 ==> BrandOwners[k][0] == 'W'
  {
  }

  /** `Acme Co` is not a listed name, although it is capitalised and trimmed. */
  lemma AcmeNotListed()
    ensures "Acme Co" !in BrandOwnerSet
  {
    SetIsList("Acme Co");
    if k :| 0 <= k < |BrandOwners| && BrandOwners[k] == "Acme Co" {
      SevenLongIsWalmart(k);
    }
  }

  /** Two rows, one of a listed brand owner and one of an unlisted one: only the first is kept. */
  lemma TwoRowExample(b: Row, c: Row)
    requires b == [("ingredients", "WATER, SALT"), ("brandOwner", "KROGER")]
    requires c == [("ingredients", "WATER, SALT"), ("brandOwner", "Acme Co")]
    ensures KeptRows(BrandOwnerSet, [b, c]) == [b]
  {
    KrogerIsListed();
    OwnerOfTwoFieldRow("WATER, SALT", "KROGER");
    StripOfTrimmed("KROGER");
    OwnerOfTwoFieldRow("WATER, SALT", "Acme Co");
    StripOfTrimmed("Acme Co");
    AcmeNotListed();
    KeptStep(BrandOwnerSet, [], b);
    assert [b] == [] + [b];
    KeptStep(BrandOwnerSet, [b], c);
    assert [b, c] == [b] + [c];
  }

  /** Two rows, one of a listed brand owner and one of its lower-case spelling: only the first is kept. */
  lemma CaseSpellingRowExample(b: Row, c: Row)
    requires b == [("ingredients", "WATER, SALT"), ("brandOwner", "KROGER")]
    requires c == [("ingredients", "WATER, SALT"), ("brandOwner", "kroger")]
    ensures KeptRows(BrandOwnerSet, [b, c]) == [b]
  {
    KrogerIsListed();
    OwnerOfTwoFieldRow("WATER, SALT", "KROGER");
    StripOfTrimmed("KROGER");
    OwnerOfTwoFieldRow("WATER, SALT", "kroger");
    StripOfTrimmed("kroger");
    LowerCaseOwnerNeverKept(c);
    KeptStep(BrandOwnerSet, [], b);
    assert [b] == [] + [b];
    KeptStep(BrandOwnerSet, [b], c);
    assert [b, c] == [b] + [c];
  }
}
