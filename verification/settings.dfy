/**
  The settings page: importing product codes from a text file, importing a
  JSON backup by merge or replacement, adding and removing master entries
  (products, processes, workers), and the two-step "delete all data" button.
  Storage, the file reader, the JSON parser and the confirmation dialog are
  inputs: the current lists, the file's text or parsed shape, and the user's
  answer.
 */
module Settings {
  import opened Wrappers
  import opened Types
  import opened Seqs
  import opened Text

  // ---------------------------------------------------------------------------
  // Product-code import
  // ---------------------------------------------------------------------------

  datatype ProductImportError =
    | DuplicateCode(code: string)   // the code is already a product, or repeats an earlier line
    | NoValidCodes                  // the file holds no non-blank line

  /** The codes a file contributes: its trimmed lines, blank ones skipped, in file order. */
  function Codes(lines: seq<string>): seq<string>
    decreases |lines|
  {
    if |lines| == 0 then []
    else
      var code := Trim(lines[|lines| - 1]);
      Codes(lines[..|lines| - 1]) + if |code| > 0 then [code] else []
  }

  /** The codes of a concatenation of line lists are the concatenated codes. */
  lemma {:induction false} CodesConcat(a: seq<string>, b: seq<string>)
    ensures Codes(a + b) == Codes(a) + Codes(b)
    decreases |b|
  {
    if |b| == 0 {
      assert a + b == a;
    } else {
      assert (a + b)[..|a + b| - 1] == a + b[..|b| - 1];
      CodesConcat(a, b[..|b| - 1]);
    }
  }

  /** Every code is a trimmed line: non-empty, without whitespace at either end. */
  lemma {:induction false} CodesAreTrimmed(lines: seq<string>)
    ensures forall k :: 0 <= k < |Codes(lines)| ==>
      |Codes(lines)[k]| > 0 && !IsWhitespace(Codes(lines)[k][0]) && !IsWhitespace(Codes(lines)[k][|Codes(lines)[k]| - 1])
    decreases |lines|
  {
    if |lines| > 0 {
      CodesAreTrimmed(lines[..|lines| - 1]);
    }
  }

  function SetOf(s: seq<string>): set<string> {
    set c | c in s
  }

  /** The code names of the product list. */
  function NameSet(entries: seq<Entry>): set<string> {
    set i | 0 <= i < |entries| :: entries[i].name
  }

  /**
    The first code that is already in `seen` or repeats an earlier code: the
    one the import stops at.
   */
  function FirstClash(codes: seq<string>, seen: set<string>): Option<string>
    decreases |codes|
  {
    if |codes| == 0 then None
    else if codes[0] in seen then Some(codes[0])
    else FirstClash(codes[1..], seen + {codes[0]})
  }

  /** Scanning a concatenation: a clash in the first part, else a clash in the second against everything seen. */
  lemma {:induction false} FirstClashConcat(a: seq<string>, b: seq<string>, seen: set<string>)
    ensures FirstClash(a + b, seen) ==
      if FirstClash(a, seen).Some? then FirstClash(a, seen) else FirstClash(b, seen + SetOf(a))
    decreases |a|
  {
    if |a| == 0 {
      assert a + b == b;
      assert seen + SetOf(a) == seen;
    } else {
      assert (a + b)[0] == a[0];
      assert (a + b)[1..] == a[1..] + b;
      FirstClashConcat(a[1..], b, seen + {a[0]});
      assert a == [a[0]] + a[1..];
      assert SetOf(a) == {a[0]} + SetOf(a[1..]);
      assert seen + SetOf(a) == seen + {a[0]} + SetOf(a[1..]);
    }
  }

  ghost predicate Distinct(s: seq<string>) {
    forall i, j :: 0 <= i < j < |s| ==> s[i] != s[j]
  }

  /** The codes are distinct and none is in `seen`. */
  ghost predicate AllNew(codes: seq<string>, seen: set<string>) {
    Distinct(codes) && forall i :: 0 <= i < |codes| ==> codes[i] !in seen
  }

  /** A list of codes is new against `seen` exactly when its head is and its tail is new against one more code. */
  lemma AllNewCons(codes: seq<string>, seen: set<string>)
    requires |codes| > 0
    ensures AllNew(codes, seen) <==> codes[0] !in seen && AllNew(codes[1..], seen + {codes[0]})
  {
    var tail := codes[1..];
    if AllNew(codes, seen) {
      forall i | 0 <= i < |tail| ensures tail[i] !in seen + {codes[0]} {
        assert tail[i] == codes[i + 1];
      }
      forall i, j | 0 <= i < j < |tail| ensures tail[i] != tail[j] {
        assert tail[i] == codes[i + 1] && tail[j] == codes[j + 1];
      }
    }
    if codes[0] !in seen && AllNew(tail, seen + {codes[0]}) {
      forall i | 0 <= i < |codes| ensures codes[i] !in seen {
        if i > 0 {
          assert codes[i] == tail[i - 1];
        }
      }
      forall i, j | 0 <= i < j < |codes| ensures codes[i] != codes[j] {
        assert codes[j] == tail[j - 1];
        if i > 0 {
          assert codes[i] == tail[i - 1];
        }
      }
    }
  }

  /** No clash exactly when the codes are pairwise distinct and none is already seen. */
  lemma {:induction false} FirstClashNoneIff(codes: seq<string>, seen: set<string>)
    ensures FirstClash(codes, seen).None? <==> AllNew(codes, seen)
    decreases |codes|
  {
    if |codes| > 0 {
      FirstClashNoneIff(codes[1..], seen + {codes[0]});
      AllNewCons(codes, seen);
    }
  }

  /** A reported clash is a code of the file that is already seen or occurs earlier in the file. */
  lemma {:induction false} FirstClashIsDuplicate(codes: seq<string>, seen: set<string>)
    ensures FirstClash(codes, seen).Some? ==>
      exists i :: 0 <= i < |codes| && codes[i] == FirstClash(codes, seen).value &&
        (codes[i] in seen || codes[i] in codes[..i])
    decreases |codes|
  {
    if |codes| > 0 && codes[0] !in seen {
      var c := FirstClash(codes, seen);
      FirstClashIsDuplicate(codes[1..], seen + {codes[0]});
      if c.Some? {
        var i :| 0 <= i < |codes[1..]| && codes[1..][i] == c.value &&
          (codes[1..][i] in seen + {codes[0]} || codes[1..][i] in codes[1..][..i]);
        assert codes[i + 1] == c.value;
        assert codes[..i + 1] == [codes[0]] + codes[1..][..i];
      }
    }
  }

  /** The entries the import appends: the `k`-th new code gets the `k`-th fresh id. */
  function NewEntries(codes: seq<string>, mkId: nat -> string): (r: seq<Entry>)
    ensures |r| == |codes|
    ensures forall k :: 0 <= k < |codes| ==> r[k] == Entry(mkId(k), codes[k])
    decreases |codes|
  {
    if |codes| == 0 then []
    else NewEntries(codes[..|codes| - 1], mkId) + [Entry(mkId(|codes| - 1), codes[|codes| - 1])]
  }

  /** Appending one code appends one entry, with the next fresh id. */
  lemma NewEntriesSnoc(codes: seq<string>, code: string, mkId: nat -> string)
    ensures NewEntries(codes + [code], mkId) == NewEntries(codes, mkId) + [Entry(mkId(|codes|), code)]
  {
    assert (codes + [code])[..|codes|] == codes;
  }

  /** One more code adds one element to the set of codes. */
  lemma SetOfSnoc(codes: seq<string>, code: string)
    ensures SetOf(codes + [code]) == SetOf(codes) + {code}
  {
  }

  /** A clash among the codes of the first lines is the clash of the whole file. */
  lemma ClashInPrefix(lines: seq<string>, n: nat, seen: set<string>)
    requires n <= |lines|
    requires FirstClash(Codes(lines[..n]), seen).Some?
    ensures FirstClash(Codes(lines), seen) == FirstClash(Codes(lines[..n]), seen)
  {
    assert lines == lines[..n] + lines[n..];
    CodesConcat(lines[..n], lines[n..]);
    FirstClashConcat(Codes(lines[..n]), Codes(lines[n..]), seen);
  }

  /** What line `i` contributes to the scan, given that the lines before it raised no clash. */
  lemma ImportStep(ns: set<string>, lines: seq<string>, i: nat)
    requires i < |lines|
    requires FirstClash(Codes(lines[..i]), ns).None?
    ensures var code := Trim(lines[i]);
      && (|code| == 0 ==> Codes(lines[..i + 1]) == Codes(lines[..i]))
      && (|code| > 0 ==> Codes(lines[..i + 1]) == Codes(lines[..i]) + [code])
      && (|code| > 0 && code in ns + SetOf(Codes(lines[..i])) ==>
            FirstClash(Codes(lines), ns) == Some(code))
      && (|code| > 0 && code !in ns + SetOf(Codes(lines[..i])) ==>
            FirstClash(Codes(lines[..i + 1]), ns).None? &&
            SetOf(Codes(lines[..i + 1])) == SetOf(Codes(lines[..i])) + {code})
  {
    var code := Trim(lines[i]);
    var prefix := Codes(lines[..i]);
    CodesStep(lines, i);
    if |code| > 0 {
      FirstClashSnoc(prefix, code, ns);
      SetOfSnoc(prefix, code);
      if code in ns + SetOf(prefix) {
        ClashInPrefix(lines, i + 1, ns);
      }
    }
  }

  /** The codes of one more line: its trimmed text is appended unless blank. */
  lemma CodesStep(lines: seq<string>, i: nat)
    requires i < |lines|
    ensures Codes(lines[..i + 1]) == Codes(lines[..i]) + if |Trim(lines[i])| > 0 then [Trim(lines[i])] else []
  {
    assert lines[..i + 1][..i] == lines[..i];
  }

  /** Scanning one more code after a clean prefix clashes exactly when the code was seen. */
  lemma FirstClashSnoc(prefix: seq<string>, code: string, seen: set<string>)
    requires FirstClash(prefix, seen).None?
    ensures FirstClash(prefix + [code], seen) == if code in seen + SetOf(prefix) then Some(code) else None
  {
    FirstClashConcat(prefix, [code], seen);
    assert [code][1..] == [];
  }

  /**
    One pass of the loop of `handleProductFileImport`: line `i` is trimmed and
    skipped when blank; a code already seen stops the import; a new code is
    recorded as seen and gets an entry with the next fresh id.
   */
  method ScanLine(ns: set<string>, lines: seq<string>, i: nat, seen: set<string>, newProducts: seq<Entry>,
                  ghost codes: seq<string>, mkId: nat -> string)
    returns (clash: Option<string>, seen': set<string>, newProducts': seq<Entry>, ghost codes': seq<string>)
    requires i < |lines| && codes == Codes(lines[..i]) && FirstClash(codes, ns).None?
    requires seen == ns + SetOf(codes) && newProducts == NewEntries(codes, mkId)
    ensures clash.Some? ==> FirstClash(Codes(lines), ns) == clash
    ensures clash.None? ==>
      && codes' == Codes(lines[..i + 1]) && FirstClash(codes', ns).None?
      && seen' == ns + SetOf(codes') && newProducts' == NewEntries(codes', mkId)
  {
    var code := Trim(lines[i]);
    if |code| == 0 {
      CodesStep(lines, i);
      return None, seen, newProducts, codes;
    }
    if code in seen {
      ScanClash(ns, lines, i, codes);
      return Some(code), seen, newProducts, codes;
    }
    ScanNewCode(ns, lines, i, codes, mkId);
    return None, seen + {code}, newProducts + [Entry(mkId(|newProducts|), code)], codes + [code];
  }

  /** A non-blank line whose code was seen stops the scan of the whole file with that code. */
  lemma ScanClash(ns: set<string>, lines: seq<string>, i: nat, codes: seq<string>)
    requires i < |lines| && codes == Codes(lines[..i]) && FirstClash(codes, ns).None?
    requires |Trim(lines[i])| > 0 && Trim(lines[i]) in ns + SetOf(codes)
    ensures FirstClash(Codes(lines), ns) == Some(Trim(lines[i]))
  {
    ImportStep(ns, lines, i);
  }

  /** A non-blank line with a new code extends the codes, the seen set and the entries by one. */
  lemma ScanNewCode(ns: set<string>, lines: seq<string>, i: nat, codes: seq<string>, mkId: nat -> string)
    requires i < |lines| && codes == Codes(lines[..i]) && FirstClash(codes, ns).None?
    requires |Trim(lines[i])| > 0 && Trim(lines[i]) !in ns + SetOf(codes)
    ensures var code := Trim(lines[i]);
      && Codes(lines[..i + 1]) == codes + [code]
      && FirstClash(codes + [code], ns).None?
      && ns + SetOf(codes + [code]) == ns + SetOf(codes) + {code}
      && NewEntries(codes + [code], mkId) == NewEntries(codes, mkId) + [Entry(mkId(|codes|), code)]
  {
    ImportStep(ns, lines, i);
    NewEntriesSnoc(codes, Trim(lines[i]), mkId);
  }

  /**
    The loop of `handleProductFileImport` over the lines: the first clash, or
    one entry per code in file order.
   */
  method ScanLines(products: seq<Entry>, lines: seq<string>, mkId: nat -> string)
    returns (res: Result<seq<Entry>, string>)
    ensures FirstClash(Codes(lines), NameSet(products)).Some? ==>
      res == Err(FirstClash(Codes(lines), NameSet(products)).value)
    ensures FirstClash(Codes(lines), NameSet(products)).None? ==>
      res == Ok(NewEntries(Codes(lines), mkId))
  {
    var ns := NameSet(products);
    var seen := ns;
    var newProducts: seq<Entry> := [];
    ghost var codes: seq<string> := [];
    var i := 0;
    while i < |lines|
      invariant 0 <= i <= |lines|
      invariant codes == Codes(lines[..i])
      invariant FirstClash(codes, ns).None?
      invariant seen == ns + SetOf(codes)
      invariant newProducts == NewEntries(codes, mkId)
    {
      var clash;
      clash, seen, newProducts, codes := ScanLine(ns, lines, i, seen, newProducts, codes, mkId);
      if clash.Some? {
        return Err(clash.value);
      }
      i := i + 1;
    }
    assert lines[..i] == lines;
    return Ok(newProducts);
  }

  /**
    `handleProductFileImport` on the file's text: split into lines at `\r?\n`
    and scan them; a clash is reported with its code, a file without codes is
    reported as such, and otherwise the new entries are appended after the
    existing products in file order. On an error nothing is added.
   */
  method ImportProducts(products: seq<Entry>, content: string, mkId: nat -> string)
    returns (res: Result<seq<Entry>, ProductImportError>)
    ensures var codes := Codes(SplitLines(content));
      var clash := FirstClash(codes, NameSet(products));
      && (clash.Some? ==> res == Err(DuplicateCode(clash.value)))
      && (clash.None? && |codes| == 0 ==> res == Err(NoValidCodes))
      && (clash.None? && |codes| > 0 ==> res == Ok(products + NewEntries(codes, mkId)))
  {
    var lines := SplitLines(content);
    var scanned := ScanLines(products, lines, mkId);
    match scanned
    case Err(code) =>
      return Err(DuplicateCode(code));
    case Ok(newProducts) =>
      if |newProducts| == 0 {
        return Err(NoValidCodes);
      }
      return Ok(products + newProducts);
  }

  /** The code names of a list, in order. */
  function Names(entries: seq<Entry>): (r: seq<string>)
    ensures |r| == |entries|
    ensures forall k :: 0 <= k < |entries| ==> r[k] == entries[k].name
  {
    seq(|entries|, k requires 0 <= k < |entries| => entries[k].name)
  }

  /** A successful import of a list of distinct codes keeps every code distinct. */
  lemma ImportKeepsCodesDistinct(products: seq<Entry>, codes: seq<string>, mkId: nat -> string)
    requires Distinct(Names(products))
    requires FirstClash(codes, NameSet(products)).None?
    ensures Distinct(Names(products + NewEntries(codes, mkId)))
  {
    FirstClashNoneIff(codes, NameSet(products));
    assert AllNew(codes, NameSet(products));
    var all := products + NewEntries(codes, mkId);
    var n := |products|;
    forall i, j | 0 <= i < j < |all| ensures Names(all)[i] != Names(all)[j] {
      if j >= n {
        assert Names(all)[j] == codes[j - n];
        if i < n {
          assert Names(all)[i] == products[i].name;
          assert products[i].name in NameSet(products);
        } else {
          assert Names(all)[i] == codes[i - n];
        }
      } else {
        assert Names(all)[i] == Names(products)[i] && Names(all)[j] == Names(products)[j];
      }
    }
  }

  // ---------------------------------------------------------------------------
  // JSON backup import
  // ---------------------------------------------------------------------------

  /** What `JSON.parse` made of the file: an exception, a non-array value, or an array of records. */
  datatype Parsed = Malformed | NotAnArray | RecordArray(items: seq<Record>)

  /** Whether a record's id is not among `ids`. */
  function NotIn(ids: set<string>): Record -> bool {
    (r: Record) => r.id !in ids
  }

  /** The ids of a concatenation. */
  lemma IdsOfConcat(a: seq<Record>, b: seq<Record>)
    ensures IdsOf(a + b) == IdsOf(a) + IdsOf(b)
  {
    var ab := a + b;
    forall x | x in IdsOf(a) + IdsOf(b) ensures x in IdsOf(ab) {
      if x in IdsOf(a) {
        var i :| 0 <= i < |a| && a[i].id == x;
        assert ab[i] == a[i];
      } else {
        var i :| 0 <= i < |b| && b[i].id == x;
        assert ab[|a| + i] == b[i];
      }
    }
  }

  /** Dropping the records whose id is in `ids` loses no id outside `ids`. */
  lemma IdsOfKept(existing: seq<Record>, ids: set<string>)
    ensures IdsOf(Filter(existing, NotIn(ids))) + ids == IdsOf(existing) + ids
  {
    var kept := Filter(existing, NotIn(ids));
    forall x | x in IdsOf(existing) && x !in ids ensures x in IdsOf(kept) {
      var i :| 0 <= i < |existing| && existing[i].id == x;
      assert existing[i] in kept;
    }
    forall x | x in IdsOf(kept) ensures x in IdsOf(existing) {
      var i :| 0 <= i < |kept| && kept[i].id == x;
      assert kept[i] in existing;
    }
  }

  /**
    The merge of `handleImportData`: the existing records whose id the import
    does not carry, in their order, followed by every imported record, so an
    imported record overwrites a stored one with its id.
   */
  function MergeById(existing: seq<Record>, imported: seq<Record>): (r: seq<Record>)
    ensures |imported| <= |r| && r[|r| - |imported|..] == imported
    ensures forall i :: 0 <= i < |r| - |imported| ==> r[i] in existing && r[i].id !in IdsOf(imported)
    ensures forall i :: 0 <= i < |existing| && existing[i].id !in IdsOf(imported) ==> existing[i] in r
    ensures IdsOf(r) == IdsOf(existing) + IdsOf(imported)
  {
    var kept := Filter(existing, NotIn(IdsOf(imported)));
    IdsOfConcat(kept, imported);
    IdsOfKept(existing, IdsOf(imported));
    assert forall i :: 0 <= i < |kept| ==> (kept + imported)[i] == kept[i];
    kept + imported
  }

  /**
    `handleImportData`: a file that is not JSON or not an array is rejected
    (`None`, the stored records stay as they are); otherwise the answer to the
    dialog chooses between the merge and the wholesale replacement.
   */
  function ImportData(existing: seq<Record>, parsed: Parsed, shouldMerge: bool): (r: Option<seq<Record>>)
    ensures r.Some? <==> parsed.RecordArray?
    ensures parsed.RecordArray? && !shouldMerge ==> r.value == parsed.items
    ensures parsed.RecordArray? && shouldMerge ==> IdsOf(r.value) == IdsOf(existing) + IdsOf(parsed.items)
  {
    match parsed
    case RecordArray(items) => Some(if shouldMerge then MergeById(existing, items) else items)
    case _ => None
  }

  /** The records kept by a merge are an order-preserving selection of the stored ones. */
  lemma MergeKeepsOrder(existing: seq<Record>, imported: seq<Record>)
    ensures var kept := MergeById(existing, imported)[..|MergeById(existing, imported)| - |imported|];
      SubsequenceAt(kept, existing, MatchingIndices(existing, NotIn(IdsOf(imported))), NotIn(IdsOf(imported)))
  {
    var kept := Filter(existing, NotIn(IdsOf(imported)));
    assert MergeById(existing, imported)[..|MergeById(existing, imported)| - |imported|] == kept;
    FilterIsOrderedSelection(existing, NotIn(IdsOf(imported)));
  }

  /** Importing the same backup twice by merge is the same as importing it once. */
  lemma MergeIdempotent(existing: seq<Record>, imported: seq<Record>)
    ensures MergeById(MergeById(existing, imported), imported) == MergeById(existing, imported)
  {
    var p := NotIn(IdsOf(imported));
    var kept := Filter(existing, p);
    var m := MergeById(existing, imported);
    assert m == kept + imported;
    forall i | 0 <= i < |imported| ensures !p(imported[i]) {
      assert imported[i].id in IdsOf(imported);
    }
    RefilterKept(kept, imported, p);
    assert MergeById(m, imported) == Filter(m, p) + imported;
  }

  /** Filtering again keeps the records a filter kept and drops the ones it rejects. */
  lemma RefilterKept(kept: seq<Record>, imported: seq<Record>, p: Record -> bool)
    requires forall i :: 0 <= i < |kept| ==> p(kept[i])
    requires forall i :: 0 <= i < |imported| ==> !p(imported[i])
    ensures Filter(kept + imported, p) == kept
  {
    FilterConcat(kept, imported, p);
    FilterAll(kept, p);
    FilterNone(imported, p);
  }

  /** A filter whose predicate fails everywhere is empty. */
  lemma {:induction false} FilterNone<T>(s: seq<T>, p: T -> bool)
    requires forall i :: 0 <= i < |s| ==> !p(s[i])
    ensures Filter(s, p) == []
    decreases |s|
  {
    if |s| > 0 {
      FilterNone(s[..|s| - 1], p);
    }
  }

  /** Merging an empty backup leaves the stored records as they are. */
  lemma MergeNothing(existing: seq<Record>)
    ensures MergeById(existing, []) == existing
  {
    FilterAll(existing, NotIn(IdsOf([])));
  }

  /**
    The merge example: stored record 1, imported a new record 1 and a record 2;
    the result is the new record 1 followed by record 2.
   */
  lemma MergeExample(old1: Record, new1: Record, rec2: Record)
    requires old1.id == "1" && new1.id == "1" && rec2.id == "2"
    ensures ImportData([old1], RecordArray([new1, rec2]), true) == Some([new1, rec2])
  {
    var p := NotIn(IdsOf([new1, rec2]));
    assert [new1, rec2][0] == new1;
    assert new1.id in IdsOf([new1, rec2]);
    FilterSingleton(old1, p);
  }

  // ---------------------------------------------------------------------------
  // Master lists
  // ---------------------------------------------------------------------------

  /** A master list with the text typed into its "add" field. */
  datatype MasterList = MasterList(entries: seq<Entry>, draft: string)

  /**
    `handleAddProduct` / `handleAddProcess` / `handleAddWorker`: a non-empty
    draft is appended under a fresh id and the field is cleared; an empty
    draft changes nothing.
   */
  function AddEntry(m: MasterList, freshId: string): (r: MasterList)
    ensures |m.draft| == 0 ==> r == m
    ensures |m.draft| > 0 ==>
      && |r.entries| == |m.entries| + 1
      && r.entries[..|m.entries|] == m.entries
      && r.entries[|m.entries|] == Entry(freshId, m.draft)
      && r.draft == ""
  {
    if |m.draft| > 0 then MasterList(m.entries + [Entry(freshId, m.draft)], "") else m
  }

  function OtherEntryId(id: string): Entry -> bool {
    (e: Entry) => e.id != id
  }

  /** `handleRemoveProduct` and its siblings: every entry with the id is dropped, the rest keep their order. */
  function RemoveEntry(entries: seq<Entry>, id: string): (r: seq<Entry>)
    ensures forall i :: 0 <= i < |r| ==> r[i].id != id && r[i] in entries
    ensures forall i :: 0 <= i < |entries| && entries[i].id != id ==> entries[i] in r
  {
    Filter(entries, OtherEntryId(id))
  }

  /** Removing is an order-preserving selection of the entries with another id. */
  lemma RemoveKeepsOrder(entries: seq<Entry>, id: string)
    ensures SubsequenceAt(RemoveEntry(entries, id), entries, MatchingIndices(entries, OtherEntryId(id)), OtherEntryId(id))
  {
    FilterIsOrderedSelection(entries, OtherEntryId(id));
  }

  /** Removing the entry just added under a fresh id restores the list. */
  lemma RemoveUndoesAdd(m: MasterList, freshId: string)
    requires |m.draft| > 0
    requires forall i :: 0 <= i < |m.entries| ==> m.entries[i].id != freshId
    ensures RemoveEntry(AddEntry(m, freshId).entries, freshId) == m.entries
  {
    var p := OtherEntryId(freshId);
    FilterConcat(m.entries, [Entry(freshId, m.draft)], p);
    FilterSingleton(Entry(freshId, m.draft), p);
    FilterAll(m.entries, p);
  }

  // ---------------------------------------------------------------------------
  // Delete all data
  // ---------------------------------------------------------------------------

  /** The stored records and whether the delete button is armed. */
  datatype ClearState = ClearState(data: seq<Record>, armed: bool)

  /** `handleClearData`: an armed press empties the records and disarms; an unarmed press only arms. */
  function HandleClear(s: ClearState): (r: ClearState)
    ensures r.armed != s.armed
    ensures r.data == [] || r.data == s.data
    ensures r.data != s.data ==> s.armed
  {
    if s.armed then ClearState([], false) else ClearState(s.data, true)
  }

  /** From the unarmed state one press keeps every record and two presses delete them all. */
  lemma ClearNeedsTwoPresses(data: seq<Record>)
    ensures HandleClear(ClearState(data, false)).data == data
    ensures HandleClear(HandleClear(ClearState(data, false))) == ClearState([], false)
  {
  }
}
