/**
 * The ingredient filter: every product record of the upstream JSON array is
 * counted; records whose `ingredients` text is missing, not a string or blank
 * are skipped; records whose ingredient text mentions a denylisted oil or
 * additive (case-insensitively, as a whole phrase between word boundaries)
 * are dropped; the rest are flattened and written as CSV rows under a header
 * fixed by the first record written.
 */
module IngredientFilter {
  import opened Wrappers
  import opened Ascii
  import opened Dicts

  /** A JSON value as the streaming parser yields it; non-integral numbers arrive as decimals. */
  datatype Value =
    | Null
    | Bool(b: bool)
    | Int(i: int)
    | Decimal(literal: string)
    | Str(s: string)
    | Array(elems: seq<Value>)
    | Object(members: seq<(string, Value)>)

  /** One product record: a JSON object. */
  type Item = Dict<Value>

  /** A cell of the output CSV. */
  datatype Cell =
    | Plain(v: Value)          // a scalar written as it is
    | Json(v: Value)           // the `json.dumps` text of a list or an object
    | Float(literal: string)   // `float(Decimal(literal))`
    | Blank                    // the writer's `restval` for a header key the record lacks

  /** What a `csv.DictWriter` has written: its header row and the data rows after it. */
  datatype Sheet = Sheet(header: seq<string>, rows: seq<seq<Cell>>)

  // ---------------------------------------------------------------------------
  // The denylist and what it means for ingredient text to match it
  // ---------------------------------------------------------------------------

  /** The alternatives of the search pattern, in the pattern's order. */
  const Denylist: seq<string> := [
    "GRAPESEED OIL", "SUNFLOWER OIL", "SOYBEAN OIL", "COTTONSEED OIL", "CORN OIL",
    "CANOLA OIL", "ORCANOLA OIL", "CANOLA AND/OR SUNFLOWER OIL",
    "NON-GMO EXPELLER PRESSED CANOLA OIL", "NON-HYDROGENATED CANOLA OIL",
    "ORGANIC EXPELLER PRESSED SOYBEAN OIL", "SOYBEAN OILS", "CANOLA OILS",
    "VEGATABLE OIL", "VEGATABLE OILS", "FRACTIONATED PALM KERNEL OIL",
    "FRACTIONATED PALM KERNEL OILS", "HYDROGENATED PALM KERNEL OIL",
    "PALM KERNEL OILS", "PALM KERNEL OIL", "HYDROGENATED", "COTTONSEED OILS",
    "COTTONSEED", "CORN SYRUP", "PALM OIL", "VEGETABLE OIL", "VEGETABLE OILS",
    "FD & C RED#40"
  ]

  /** Position `i` holds a word character. */
  predicate WordAt(text: string, i: int) {
    0 <= i < |text| && IsWordChar(text[i])
  }

  /** `\b` at position `i`: a word character on exactly one side of it. */
  predicate IsBoundary(text: string, i: int) {
    WordAt(text, i - 1) != WordAt(text, i)
  }

  ghost predicate EqualIgnoringCase(a: string, b: string) {
    |a| == |b| && forall j :: 0 <= j < |a| ==> SameIgnoringCase(a[j], b[j])
  }

  /** Phrase `p` occurs at `i`, ignoring case, with a word boundary on both sides. */
  ghost predicate MatchesAt(text: string, i: int, p: string) {
    0 <= i && i + |p| <= |text|
    && IsBoundary(text, i)
    && EqualIgnoringCase(text[i..i + |p|], p)
    && IsBoundary(text, i + |p|)
  }

  /** The search succeeds: some denylist phrase matches at some position. */
  ghost predicate HasUnwantedOil(text: string) {
    exists i, k :: 0 <= k < |Denylist| && MatchesAt(text, i, Denylist[k])
  }

  /** Texts that differ only in the case of their letters match the same phrases at the same places. */
  lemma CaseVariantsMatchAlike(s: string, t: string, i: int, p: string)
    requires |s| == |t| && forall j :: 0 <= j < |s| ==> SameIgnoringCase(s[j], t[j])
    ensures MatchesAt(s, i, p) <==> MatchesAt(t, i, p)
  {
    forall j | 0 <= j < |s| ensures IsWordChar(s[j]) == IsWordChar(t[j]) {
      SameIgnoringCaseKeepsClass(s[j], t[j]);
    }
    if 0 <= i && i + |p| <= |s| {
      var a, b := s[i..i + |p|], t[i..i + |p|];
      assert forall j :: 0 <= j < |p| ==> a[j] == s[i + j] && b[j] == t[i + j];
    }
  }

  /** Upper- or lower-casing the ingredient text does not change whether it matches. */
  lemma MatchIgnoresCase(text: string)
    ensures HasUnwantedOil(UpperText(text)) <==> HasUnwantedOil(text)
    ensures HasUnwantedOil(LowerText(text)) <==> HasUnwantedOil(text)
  {
    forall i, k | 0 <= k < |Denylist|
      ensures MatchesAt(UpperText(text), i, Denylist[k]) <==> MatchesAt(text, i, Denylist[k])
      ensures MatchesAt(LowerText(text), i, Denylist[k]) <==> MatchesAt(text, i, Denylist[k])
    {
      CaseVariantsMatchAlike(UpperText(text), text, i, Denylist[k]);
      CaseVariantsMatchAlike(LowerText(text), text, i, Denylist[k]);
    }
  }

  /** Every phrase is at least eight characters long and starts and ends with a word character. */
  lemma PhrasesAreWords(k: nat)
    requires k < |Denylist|
    ensures |Denylist[k]| >= 8
    ensures IsWordChar(Denylist[k][0]) && IsWordChar(Denylist[k][|Denylist[k]| - 1])
  {
  }

  /** A phrase that starts right after a word character, inside a longer word, never matches there. */
  lemma NoMatchInsideWord(text: string, i: int, k: nat)
    requires k < |Denylist| && 0 < i <= |text| && IsWordChar(text[i - 1])
    ensures !MatchesAt(text, i, Denylist[k])
  {
    PhrasesAreWords(k);
  }

  /** A phrase followed directly by a word character, the start of a longer word, never matches there. */
  lemma NoMatchIntoWord(text: string, i: int, k: nat)
    requires k < |Denylist| && 0 <= i && i + |Denylist[k]| < |text| && IsWordChar(text[i + |Denylist[k]|])
    ensures !MatchesAt(text, i, Denylist[k])
  {
    PhrasesAreWords(k);
  }

  /** "POPCORN OIL" holds "CORN OIL" only inside a word, so it does not match there; "CANOLA OIL" between commas does. */
  lemma WordBoundaryExamples()
    ensures !MatchesAt("POPCORN OIL", 3, "CORN OIL")
    ensures MatchesAt("SALT, CANOLA OIL, WATER", 6, "CANOLA OIL") && HasUnwantedOil("SALT, CANOLA OIL, WATER")
  {
    assert Denylist[4] == "CORN OIL";
    NoMatchInsideWord("POPCORN OIL", 3, 4);
    var text := "SALT, CANOLA OIL, WATER";
    assert text[6..16] == "CANOLA OIL";
    assert Denylist[5] == "CANOLA OIL";
    assert MatchesAt(text, 6, Denylist[5]);
  }

  /** Every phrase starts with one of the letters C, F, G, H, N, O, P, S, V, and those with P go on with A. */
  lemma PhraseInitials(k: nat)
    requires k < |Denylist|
    ensures Denylist[k][0] in "CFGHNOPSV"
    ensures Denylist[k][0] == 'P' ==> Denylist[k][1] == 'A'
  {
  }

  /** Texts with no match: "WATER, SALT", and "POPCORN OIL" whose "CORN OIL" sits inside a word. */
  lemma CleanTextExamples()
    ensures !HasUnwantedOil("WATER, SALT")
    ensures !HasUnwantedOil("POPCORN OIL")
  {
    forall i, k | 0 <= k < |Denylist|
      ensures !MatchesAt("WATER, SALT", i, Denylist[k]) && !MatchesAt("POPCORN OIL", i, Denylist[k])
    {
      PhrasesAreWords(k);
      PhraseInitials(k);
      if 0 < i <= 3 {
        NoMatchInsideWord("WATER, SALT", i, k);
        NoMatchInsideWord("POPCORN OIL", i, k);
      } else if i == 0 && |Denylist[k]| <= 11 {
        var p := Denylist[k];
        assert "WATER, SALT"[..|p|][0] == 'W';
        assert "POPCORN OIL"[..|p|][0] == 'P' && "POPCORN OIL"[..|p|][1] == 'O';
      }
    }
  }

  /** The phrase matches in any case: "canola oil" as well as "CANOLA OIL". */
  lemma CaseExamples()
    ensures HasUnwantedOil("CANOLA OIL") && HasUnwantedOil("canola oil")
  {
    assert Denylist[5] == "CANOLA OIL";
    assert MatchesAt("CANOLA OIL", 0, Denylist[5]);
    assert LowerText("CANOLA OIL") == "canola oil";
    MatchIgnoresCase("CANOLA OIL");
  }

  /** A successful search: where the match starts and which alternative matched. */
  datatype Match = Match(start: nat, phrase: nat)

  /** Compares `text[i..i + |p|]` with `p`, character by character, ignoring case. */
  method EqualIgnoringCaseAt(text: string, i: nat, p: string) returns (eq: bool)
    requires i + |p| <= |text|
    ensures eq <==> EqualIgnoringCase(text[i..i + |p|], p)
  {
    var s := text[i..i + |p|];
    var j := 0;
    while j < |p|
      invariant 0 <= j <= |p|
      invariant forall t :: 0 <= t < j ==> SameIgnoringCase(s[t], p[t])
    {
      if !SameIgnoringCase(s[j], p[j]) {
        return false;
      }
      j := j + 1;
    }
    return true;
  }

  /** One alternative tried at one position: the boundaries, then the characters. */
  method PhraseAt(text: string, i: nat, p: string) returns (found: bool)
    ensures found <==> MatchesAt(text, i, p)
  {
    found := false;
    if i + |p| <= |text| && IsBoundary(text, i) && IsBoundary(text, i + |p|) {
      found := EqualIgnoringCaseAt(text, i, p);
    }
  }

  /**
   * The alternatives tried at one position `i`, in pattern order: the first
   * phrase that matches there, or nothing when none does.
   */
  method FirstPhraseAt(text: string, i: nat) returns (r: Option<nat>)
    ensures r.Some? ==> r.value < |Denylist| && MatchesAt(text, i, Denylist[r.value])
    ensures r.Some? ==> forall k :: 0 <= k < r.value ==> !MatchesAt(text, i, Denylist[k])
    ensures r.None? ==> forall k :: 0 <= k < |Denylist| ==> !MatchesAt(text, i, Denylist[k])
  {
    var k := 0;
    while k < |Denylist|
      invariant 0 <= k <= |Denylist|
      invariant forall k' :: 0 <= k' < k ==> !MatchesAt(text, i, Denylist[k'])
    {
      var found := PhraseAt(text, i, Denylist[k]);
      if found {
        return Some(k);
      }
      k := k + 1;
    }
    return None;
  }

  /**
   * `contains_unwanted_oils`: the search `re.search` performs. Positions are
   * tried from the left and, at each, the alternatives in pattern order, so
   * a match is the leftmost one and, there, the first alternative that
   * matches; no match is found exactly when no phrase matches anywhere.
   */
  method ContainsUnwantedOils(text: string) returns (m: Option<Match>)
    ensures m.Some? ==> m.value.phrase < |Denylist| && MatchesAt(text, m.value.start, Denylist[m.value.phrase])
    ensures m.Some? ==> forall i, k :: 0 <= i < m.value.start && 0 <= k < |Denylist| ==> !MatchesAt(text, i, Denylist[k])
    ensures m.Some? ==> forall k :: 0 <= k < m.value.phrase ==> !MatchesAt(text, m.value.start, Denylist[k])
    ensures m.None? <==> !HasUnwantedOil(text)
  {
    var i := 0;
    while i <= |text|
      invariant 0 <= i <= |text| + 1
      invariant forall i', k :: 0 <= i' < i && 0 <= k < |Denylist| ==> !MatchesAt(text, i', Denylist[k])
    {
      var r := FirstPhraseAt(text, i);
      if r.Some? {
        return Some(Match(i, r.value));
      }
      i := i + 1;
    }
    forall i', k | 0 <= k < |Denylist| ensures !MatchesAt(text, i', Denylist[k]) {
      if 0 <= i' <= |text| {
        assert !MatchesAt(text, i', Denylist[k]);
      }
    }
    return None;
  }

  // ---------------------------------------------------------------------------
  // Flattening a record for the CSV writer
  // ---------------------------------------------------------------------------

  /**
   * What one value becomes in the written row: lists and objects become
   * their JSON text, decimals become floats, every other value is kept.
   */
  function ProcessValue(v: Value): (c: Cell)
    ensures c != Blank
    ensures c.Plain? <==> !(v.Array? || v.Object? || v.Decimal?)
    ensures c.Plain? ==> c.v == v
  {
    match v
    case Array(_) => Json(v)
    case Object(_) => Json(v)
    case Decimal(literal) => Float(literal)
    case _ => Plain(v)
  }

  /** The record `process_item` builds: the same keys in the same order, each value processed. */
  function Processed(item: Item): (r: Dict<Cell>)
    ensures Keys(r) == Keys(item)
  {
    seq(|item|, j requires 0 <= j < |item| => (item[j].0, ProcessValue(item[j].1)))
  }

  /**
   * `process_item`: assigns the processed value of each key, in the
   * record's order, to a fresh dictionary. The keys are exactly those of
   * the record, in its order; each value is the record's value processed.
   */
  method ProcessItem(item: Item) returns (processed: Dict<Cell>)
    requires DistinctKeys(item)
    ensures processed == Processed(item)
    ensures Keys(processed) == Keys(item)
    ensures forall j :: 0 <= j < |item| ==> processed[j].1 == ProcessValue(item[j].1)
  {
    processed := [];
    for n := 0 to |item|
      invariant processed == Processed(item[..n])
    {
      var (key, value) := item[n];
      NextKeyIsNew(item, n);
      PutNewKeyAppends(processed, key, ProcessValue(value));
      ProcessedAppend(item, n);
      processed := Put(processed, key, ProcessValue(value));
    }
    assert item[..|item|] == item;
  }

  /** The key at position `n` is not among the keys already assigned. */
  lemma NextKeyIsNew(item: Item, n: nat)
    requires DistinctKeys(item) && n < |item|
    ensures item[n].0 !in Keys(Processed(item[..n]))
  {
    var ks := Keys(Processed(item[..n]));
    forall j | 0 <= j < n ensures ks[j] != item[n].0 {
      assert Keys(item)[j] != Keys(item)[n];
    }
  }

  lemma ProcessedAppend(item: Item, n: nat)
    requires n < |item|
    ensures Processed(item[..n + 1]) == Processed(item[..n]) + [(item[n].0, ProcessValue(item[n].1))]
  {
  }

  // ---------------------------------------------------------------------------
  // The filtering loop
  // ---------------------------------------------------------------------------

  /** `item.get('ingredients', '')`. */
  function IngredientsOf(item: Item): Value {
    Get(item, "ingredients", Str(""))
  }

  /** The record is not skipped: its ingredients are a string that is not blank. */
  predicate HasIngredientText(item: Item) {
    IngredientsOf(item).Str? && Strip(IngredientsOf(item).s) != []
  }

  /** The record is written: it has ingredient text, and that text has no denylist match. */
  ghost predicate Passes(item: Item) {
    HasIngredientText(item) && !HasUnwantedOil(IngredientsOf(item).s)
  }

  /** The records written, in input order. */
  ghost function Kept(items: seq<Item>): (r: seq<Item>)
    ensures |r| <= |items|
  {
    if items == [] then []
    else
      var init := Kept(items[..|items| - 1]);
      var last := items[|items| - 1];
      if Passes(last) then init + [last] else init
  }

  /** The data rows for the records `kept`, each processed and projected onto `header`. */
  function Rows(kept: seq<Item>, header: seq<string>): (r: seq<seq<Cell>>)
    ensures |r| == |kept|
  {
    seq(|kept|, j requires 0 <= j < |kept| => Project(Processed(kept[j]), header, Blank))
  }

  /**
   * The CSV the loop writes: nothing at all if no record passes; otherwise
   * the keys of the first record that passes as the header, and one row per
   * passing record, its processed form projected onto that header.
   */
  ghost function Written(items: seq<Item>): Option<Sheet> {
    var kept := Kept(items);
    if kept == [] then None else Some(Sheet(Keys(kept[0]), Rows(kept, Keys(kept[0]))))
  }

  /**
   * The main loop: counts every record, skips records without ingredient
   * text, counts and writes the others that do not match the denylist,
   * creating the writer (and writing the header) at the first of them.
   */
  method FilterFoods(items: seq<Item>) returns (countTotal: nat, countFiltered: nat, writer: Option<Sheet>)
    requires forall x :: x in items ==> DistinctKeys(x)
    ensures countTotal == |items|
    ensures countFiltered == |Kept(items)| <= countTotal
    ensures writer == Written(items)
    ensures writer.None? <==> countFiltered == 0
    ensures writer.Some? ==> |writer.value.rows| == countFiltered
  {
    writer := None;
    countTotal, countFiltered := 0, 0;
    for n := 0 to |items|
      invariant countTotal == n
      invariant countFiltered == |Kept(items[..n])|
      invariant writer == Written(items[..n])
    {
      var item := items[n];
      KeptStep(items[..n], item);
      assert items[..n + 1] == items[..n] + [item];
      countTotal := countTotal + 1;

      var ingredients := Get(item, "ingredients", Str(""));
      if !ingredients.Str? || Strip(ingredients.s) == [] {
        continue;
      }

      var m := ContainsUnwantedOils(ingredients.s);
      if m.None? {
        countFiltered := countFiltered + 1;
        if writer.None? {
          writer := Some(Sheet(Keys(item), []));
        }
        var processed := ProcessItem(item);
        assert processed == Processed(item);
        WrittenAppend(items[..n], item, writer.value.header);
        writer := Some(writer.value.(rows := writer.value.rows + [Project(processed, writer.value.header, Blank)]));
      }
    }
    assert items[..|items|] == items;
  }

  /** One more record extends the kept records by itself if it passes, and not at all otherwise. */
  lemma KeptStep(items: seq<Item>, item: Item)
    ensures Kept(items + [item]) == if Passes(item) then Kept(items) + [item] else Kept(items)
  {
    assert (items + [item])[..|items|] == items;
  }

  /** One more passing record adds its projected row under the header already fixed. */
  lemma WrittenAppend(items: seq<Item>, item: Item, header: seq<string>)
    requires Passes(item)
    requires header == if Kept(items) == [] then Keys(item) else Keys(Kept(items)[0])
    ensures Written(items + [item]) ==
      Some(Sheet(header, (if Kept(items) == [] then [] else Written(items).value.rows) + [Project(Processed(item), header, Blank)]))
  {
    KeptStep(items, item);
    var kept := Kept(items);
    assert (kept + [item])[0] == if kept == [] then item else kept[0];
    RowsAppend(kept, item, header);
  }

  lemma RowsAppend(kept: seq<Item>, item: Item, header: seq<string>)
    ensures Rows(kept + [item], header) == Rows(kept, header) + [Project(Processed(item), header, Blank)]
  {
  }

  // ---------------------------------------------------------------------------
  // What the written CSV is, stated without the loop
  // ---------------------------------------------------------------------------

  /** Kept is a filter: it distributes over concatenation, so it keeps exactly the passing records, in order. */
  lemma {:induction false} KeptAppend(a: seq<Item>, b: seq<Item>)
    ensures Kept(a + b) == Kept(a) + Kept(b)
  {
    if b == [] {
      assert a + b == a;
    } else {
      var b' := b[..|b| - 1];
      assert a + b == (a + b') + [b[|b| - 1]];
      assert b == b' + [b[|b| - 1]];
      KeptStep(a + b', b[|b| - 1]);
      KeptStep(b', b[|b| - 1]);
      KeptAppend(a, b');
    }
  }

  /** Every record written passes the filter and comes from the input; every passing input record is written. */
  lemma {:induction false} KeptMembers(items: seq<Item>)
    ensures forall x :: x in Kept(items) <==> x in items && Passes(x)
  {
    if items != [] {
      var init := items[..|items| - 1];
      assert items == init + [items[|items| - 1]];
      KeptStep(init, items[|items| - 1]);
      KeptMembers(init);
    }
  }

  /** A record without ingredient text changes neither the written CSV nor the count of records written. */
  lemma SkippedRecordLeavesNoTrace(items: seq<Item>, item: Item)
    requires !HasIngredientText(item)
    ensures Kept(items + [item]) == Kept(items)
    ensures Written(items + [item]) == Written(items)
  {
    KeptStep(items, item);
  }

  /** A record whose ingredients match the denylist changes neither the written CSV nor the count. */
  lemma RejectedRecordLeavesNoTrace(items: seq<Item>, item: Item)
    requires IngredientsOf(item).Str? && HasUnwantedOil(IngredientsOf(item).s)
    ensures Kept(items + [item]) == Kept(items)
    ensures Written(items + [item]) == Written(items)
  {
    KeptStep(items, item);
  }

  /**
   * The header is written exactly when some record passes, and it is the
   * key sequence of the first record that passes.
   */
  lemma HeaderIsFirstPassingKeys(items: seq<Item>, i: nat)
    requires i < |items| && Passes(items[i])
    requires forall j :: 0 <= j < i ==> !Passes(items[j])
    ensures Written(items).Some? && Written(items).value.header == Keys(items[i])
  {
    KeptNone(items[..i]);
    assert items == items[..i] + ([items[i]] + items[i + 1..]);
    KeptAppend(items[..i], [items[i]] + items[i + 1..]);
    KeptAppend([items[i]], items[i + 1..]);
    KeptStep([], items[i]);
    assert [] + [items[i]] == [items[i]];
    assert Kept([items[i]]) == [items[i]];
    assert Kept(items) == [items[i]] + Kept(items[i+1..]);
    assert Kept(items)[0] == items[i];
  }

  lemma {:induction false} KeptNone(items: seq<Item>)
    requires forall j :: 0 <= j < |items| ==> !Passes(items[j])
    ensures Kept(items) == []
  {
    if items != [] {
      KeptNone(items[..|items| - 1]);
    }
  }

  /** Nothing is written, not even a header, exactly when no record passes. */
  lemma NothingWrittenIffNonePasses(items: seq<Item>)
    ensures Written(items).None? <==> forall j :: 0 <= j < |items| ==> !Passes(items[j])
  {
    KeptMembers(items);
    if Written(items).None? {
      forall j | 0 <= j < |items| ensures !Passes(items[j]) {
        assert items[j] in items;
      }
    } else {
      assert Kept(items)[0] in Kept(items);
    }
  }

  /** A header is written exactly when some record is kept; then it is the first kept record's keys, with one row per kept record. */
  lemma WrittenShape(items: seq<Item>)
    ensures Written(items).Some? <==> Kept(items) != []
    ensures Written(items).Some? ==>
      Written(items).value.header == Keys(Kept(items)[0]) && |Written(items).value.rows| == |Kept(items)|
  {
  }

  /** The processed record has the original record's keys, each mapped to its processed value. */
  lemma {:induction false} LookupProcessed(item: Item, k: string)
    ensures Lookup(Processed(item), k) ==
      match Lookup(item, k)
      case Some(v) => Some(ProcessValue(v))
      case None => None
  {
    if item != [] {
      assert Processed(item)[1..] == Processed(item[1..]);
      LookupProcessed(item[1..], k);
    }
  }

  /**
   * Each cell of a written row: the processed value of that header key in
   * the record, or blank when the record lacks the key; keys of the record
   * outside the header appear nowhere.
   */
  lemma RowCell(items: seq<Item>, r: nat, c: nat)
    requires Written(items).Some?
    requires r < |Written(items).value.rows| && c < |Written(items).value.header|
    ensures |Written(items).value.rows[r]| == |Written(items).value.header|
    ensures Written(items).value.rows[r][c] ==
      match Lookup(Kept(items)[r], Written(items).value.header[c])
      case Some(v) => ProcessValue(v)
      case None => Blank
  {
    LookupProcessed(Kept(items)[r], Written(items).value.header[c]);
  }

  /** The first row written is the whole first passing record: no blank and nothing dropped. */
  lemma FirstRowIsWholeRecord(items: seq<Item>)
    requires forall x :: x in items ==> DistinctKeys(x)
    requires Written(items).Some?
    ensures Written(items).value.rows[0] == Values(Processed(Kept(items)[0]))
  {
    var first := Kept(items)[0];
    KeptMembers(items);
    assert first in Kept(items);
    assert DistinctKeys(first);
    FirstRowIsProjection(items);
    ProjectOwnKeys(Processed(first), Blank);
  }

  lemma FirstRowIsProjection(items: seq<Item>)
    requires Written(items).Some?
    ensures Written(items).value.rows[0] == Project(Processed(Kept(items)[0]), Keys(Processed(Kept(items)[0])), Blank)
  {
  }

  /** The three products of the example below. */
  function ExampleProduct(ingredients: string, brand: string): Item {
    [("ingredients", Str(ingredients)), ("brandOwner", Str(brand))]
  }

  lemma OilyTextMatches()
    ensures HasUnwantedOil("WATER, CANOLA OIL, SALT")
  {
    var text := "WATER, CANOLA OIL, SALT";
    assert text[7..17] == "CANOLA OIL";
    assert Denylist[5] == "CANOLA OIL";
    assert MatchesAt(text, 7, Denylist[5]);
  }

  lemma OilyProductRejected(brand: string)
    ensures !Passes(ExampleProduct("WATER, CANOLA OIL, SALT", brand))
  {
    OilyTextMatches();
    ExampleProductText("WATER, CANOLA OIL, SALT", brand);
  }

  lemma CleanProductPasses(brand: string)
    ensures Passes(ExampleProduct("WATER, SALT", brand))
  {
    ExampleProductText("WATER, SALT", brand);
    CleanTextExamples();
  }

  lemma ExampleProductKeys(ingredients: string, brand: string)
    ensures Keys(ExampleProduct(ingredients, brand)) == ["ingredients", "brandOwner"]
  {
    var k := Keys(ExampleProduct(ingredients, brand));
    assert |k| == 2 && k[0] == "ingredients" && k[1] == "brandOwner";
  }

  lemma ExampleProductText(ingredients: string, brand: string)
    requires ingredients == "WATER, SALT" || ingredients == "WATER, CANOLA OIL, SALT"
    ensures IngredientsOf(ExampleProduct(ingredients, brand)) == Str(ingredients)
    ensures HasIngredientText(ExampleProduct(ingredients, brand))
  {
    assert Strip(ingredients) != [] by {
      assert StripStart(ingredients) == ingredients;
      assert StripEnd(ingredients) == ingredients;
    }
  }

  /** Of three records where only the first fails, the other two are written, under the second one's keys. */
  lemma FirstOfThreeRejected(a: Item, b: Item, c: Item)
    requires !Passes(a) && Passes(b) && Passes(c)
    ensures Kept([a, b, c]) == [b, c]
    ensures Written([a, b, c]).Some? && Written([a, b, c]).value.header == Keys(b)
    ensures |Written([a, b, c]).value.rows| == 2
  {
    KeptStep([], a);
    assert [a] == [] + [a];
    KeptStep([a], b);
    assert [a, b] == [a] + [b];
    KeptStep([a, b], c);
    assert [a, b, c] == [a, b] + [c];
    WrittenShape([a, b, c]);
  }

  /**
   * Three products, the first with canola oil in its ingredients: the two
   * others are written, under the header "ingredients", "brandOwner".
   */
  lemma ThreeProductExample(a: Item, b: Item, c: Item)
    requires a == ExampleProduct("WATER, CANOLA OIL, SALT", "KROGER")
    requires b == ExampleProduct("WATER, SALT", "KROGER")
    requires c == ExampleProduct("WATER, SALT", "Acme Co")
    ensures Kept([a, b, c]) == [b, c]
    ensures Written([a, b, c]).Some? && Written([a, b, c]).value.header == ["ingredients", "brandOwner"]
    ensures |Written([a, b, c]).value.rows| == 2
  {
    OilyProductRejected("KROGER");
    CleanProductPasses("KROGER");
    CleanProductPasses("Acme Co");
    FirstOfThreeRejected(a, b, c);
    ExampleProductKeys("WATER, SALT", "KROGER");
  }
}
