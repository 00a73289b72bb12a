/** The pure logic of the agent wizard in `src/app/agent/page.tsx`: the
    quote-aware CSV header parser, the category toggle, the data-field list
    edits and the guards of the "Next" button. React state setters become
    returned values; `localStorage` and navigation become the `Launch`
    outcome, with the possibility that storing throws as a parameter. */
module AgentWizard {
  import opened Wrappers
  import opened Seqs
  import opened Text
  import opened CustomLlm
  import UrlPatternMatcher

  // ---------------------------------------------------------------------------
  // parseCsvHeaders

  /** `csvContent.trim().split("\n")[0]`: the first line of the trimmed upload.
      The split always has at least one piece, so the source's empty-lines
      check never fires. */
  function FirstLine(csvContent: string): (line: string)
    ensures '\n' !in line
    ensures line <= Trim(csvContent)
    ensures |line| < |Trim(csvContent)| ==> Trim(csvContent)[|line|] == '\n'
  {
    Before(Trim(csvContent), '\n')
  }

  /** The separator: `;` when the line contains one and splits into more parts
      on `;` than on `,`, otherwise `,`. */
  function DetectSeparator(line: string): (sep: char)
    ensures sep == ';' || sep == ','
    ensures sep == ';' <==> multiset(line)[';'] > multiset(line)[',']
  {
    SplitCharCount(line, ';');
    SplitCharCount(line, ',');
    ContainsChar(line, ';');
    if Contains(line, ";") && |SplitOn(line, ";")| > |SplitOn(line, ",")| then ';' else ','
  }

  /** `.replace(/^"|"$/g, "")`: drop one leading and one trailing quote. */
  function StripEdgeQuotes(s: string): (r: string)
    ensures '"' !in s ==> r == s
    ensures |r| <= |s|
  {
    var a := if |s| > 0 && s[0] == '"' then s[1..] else s;
    if |a| > 0 && a[|a| - 1] == '"' then a[..|a| - 1] else a
  }

  /** The loop variables of the parser. */
  datatype CsvState = CsvState(headers: seq<string>, current: string, inQuotes: bool)

  /** One iteration of the parser's character loop. */
  function CsvStep(st: CsvState, c: char, sep: char): CsvState {
    if c == '"' && !st.inQuotes then st.(inQuotes := true)
    else if c == '"' && st.inQuotes then st.(inQuotes := false)
    else if c == sep && !st.inQuotes then
      CsvState(st.headers + [StripEdgeQuotes(Trim(st.current))], "", st.inQuotes)
    else st.(current := st.current + [c])
  }

  /** The loop variables after reading all of `line`. */
  function CsvScan(line: string, sep: char): CsvState
    decreases |line|
  {
    if |line| == 0 then CsvState([], "", false)
    else CsvStep(CsvScan(line[..|line| - 1], sep), line[|line| - 1], sep)
  }

  /** Reading one more character is one more loop pass. */
  lemma {:induction false} ScanSnoc(line: string, i: nat, sep: char)
    requires i < |line|
    ensures CsvScan(line[..i + 1], sep) == CsvStep(CsvScan(line[..i], sep), line[i], sep)
  {
    TakeTake(line, i);
  }

  predicate NonEmpty(h: string) {
    |h| > 0
  }

  /** After the loop: push a non-empty last field, drop empty headers. */
  function FinishHeaders(st: CsvState): seq<string> {
    var all := if st.current != "" then st.headers + [StripEdgeQuotes(Trim(st.current))] else st.headers;
    Filter(all, NonEmpty)
  }

  /** The headers `parseCsvHeaders` returns for an upload. */
  function CsvHeaders(csvContent: string): seq<string> {
    var line := FirstLine(csvContent);
    FinishHeaders(CsvScan(line, DetectSeparator(line)))
  }

  /** Number of separators in `line` outside double quotes: those preceded by
      an even number of quote characters. */
  function UnquotedSeparators(line: string, sep: char): (n: nat)
    ensures n <= multiset(line)[sep]
    decreases |line|
  {
    if |line| == 0 then 0
    else
      var pre := line[..|line| - 1];
      var last := line[|line| - 1];
      assert line == pre + [last];
      UnquotedSeparators(pre, sep)
      + (if last == sep && multiset(pre)['"'] % 2 == 0 then 1 else 0)
  }

  /** What the loop maintains after reading `line`: `inQuotes` is the parity
      of the quotes read, no quote is ever copied, every pushed header is
      trimmed, and one header is pushed per separator outside quotes. */
  predicate ScanInvariant(st: CsvState, line: string, sep: char) {
    (st.inQuotes <==> multiset(line)['"'] % 2 == 1)
    && '"' !in st.current
    && (forall h :: h in st.headers ==> '"' !in h && IsTrimmed(h))
    && |st.headers| == UnquotedSeparators(line, sep)
  }

  /** A pushed field is the trimmed text read since the last separator. */
  lemma {:induction false} PushedHeader(current: string)
    requires '"' !in current
    ensures StripEdgeQuotes(Trim(current)) == Trim(current)
    ensures '"' !in Trim(current) && IsTrimmed(Trim(current))
  {
  }

  /** One iteration keeps the invariant. */
  lemma {:induction false} CsvStepKeeps(st: CsvState, line: string, c: char, sep: char)
    requires sep != '"'
    requires ScanInvariant(st, line, sep)
    ensures ScanInvariant(CsvStep(st, c, sep), line + [c], sep)
  {
    UnquotedSeparatorsSnoc(line, c, sep);
    assert multiset(line + [c])['"'] == multiset(line)['"'] + (if c == '"' then 1 else 0);
    if c == '"' {
      ParityFlip(multiset(line)['"']);
    } else if c == sep && !st.inQuotes {
      PushKeeps(st.headers, st.current);
    }
  }

  /** One more quote flips the parity. */
  lemma {:induction false} ParityFlip(q: nat)
    ensures (q + 1) % 2 == 1 <==> q % 2 == 0
  {
  }

  /** Pushing the field read so far keeps every header trimmed and quote-free. */
  lemma {:induction false} PushKeeps(headers: seq<string>, current: string)
    requires '"' !in current
    requires forall h :: h in headers ==> '"' !in h && IsTrimmed(h)
    ensures var hs := headers + [StripEdgeQuotes(Trim(current))];
            forall h :: h in hs ==> '"' !in h && IsTrimmed(h)
  {
    var pushed := StripEdgeQuotes(Trim(current));
    PushedHeader(current);
    forall h | h in headers + [pushed]
      ensures '"' !in h && IsTrimmed(h)
    {
      if h != pushed {
        assert h in headers;
      }
    }
  }

  /** Reading one more character counts it when it is a separator outside quotes. */
  lemma {:induction false} UnquotedSeparatorsSnoc(line: string, c: char, sep: char)
    ensures multiset(line + [c]) == multiset(line) + multiset{c}
    ensures UnquotedSeparators(line + [c], sep)
         == UnquotedSeparators(line, sep) + (if c == sep && multiset(line)['"'] % 2 == 0 then 1 else 0)
  {
    var line' := line + [c];
    assert line'[..|line'| - 1] == line && line'[|line'| - 1] == c;
  }

  /** The loop invariant holds after reading any line. */
  lemma {:induction false} CsvScanFacts(line: string, sep: char)
    requires sep != '"'
    ensures ScanInvariant(CsvScan(line, sep), line, sep)
    decreases |line|
  {
    if |line| > 0 {
      var pre := line[..|line| - 1];
      SplitLast(line);
      CsvScanFacts(pre, sep);
      CsvStepKeeps(CsvScan(pre, sep), pre, line[|line| - 1], sep);
    }
  }

  /** The returned headers are non-empty, trimmed and quote-free, and at most
      one more than the separators outside quotes. */
  lemma {:induction false} FinishFacts(st: CsvState, line: string, sep: char)
    requires ScanInvariant(st, line, sep)
    ensures forall h :: h in FinishHeaders(st) ==> h != "" && IsTrimmed(h) && '"' !in h
    ensures |FinishHeaders(st)| <= UnquotedSeparators(line, sep) + 1
  {
    var all := if st.current != "" then st.headers + [StripEdgeQuotes(Trim(st.current))] else st.headers;
    if st.current != "" {
      PushKeeps(st.headers, st.current);
    }
    assert forall h :: h in all ==> '"' !in h && IsTrimmed(h);
    assert |all| <= |st.headers| + 1;
    assert FinishHeaders(st) == Filter(all, NonEmpty);
  }

  /** `parseCsvHeaders`. */
  method ParseCsvHeaders(csvContent: string) returns (headers: seq<string>)
    ensures headers == CsvHeaders(csvContent)
    ensures forall h :: h in headers ==> h != "" && IsTrimmed(h) && '"' !in h
    ensures |headers| <= UnquotedSeparators(FirstLine(csvContent), DetectSeparator(FirstLine(csvContent))) + 1
  {
    var lines := SplitOn(Trim(csvContent), "\n");
    var firstLine := lines[0];
    assert firstLine == FirstLine(csvContent);
    var separator := DetectSeparator(firstLine);
    var found: seq<string> := [];
    var current := "";
    var inQuotes := false;
    var i := 0;
    while i < |firstLine|
      invariant 0 <= i <= |firstLine|
      invariant CsvState(found, current, inQuotes) == CsvScan(firstLine[..i], separator)
    {
      var c := firstLine[i];
      if c == '"' && !inQuotes {
        inQuotes := true;
      } else if c == '"' && inQuotes {
        inQuotes := false;
      } else if c == separator && !inQuotes {
        found := found + [StripEdgeQuotes(Trim(current))];
        current := "";
      } else {
        current := current + [c];
      }
      ScanSnoc(firstLine, i, separator);
      i := i + 1;
    }
    TakeAll(firstLine);
    CsvScanFacts(firstLine, separator);
    FinishFacts(CsvState(found, current, inQuotes), firstLine, separator);
    if current != "" {
      found := found + [StripEdgeQuotes(Trim(current))];
    }
    headers := Filter(found, NonEmpty);
  }

  /** Without quote characters the parser is the plain split on the
      separator, each piece trimmed, empty pieces dropped. */
  lemma {:induction false} QuoteFreeHeaders(csvContent: string)
    requires '"' !in FirstLine(csvContent)
    ensures var line := FirstLine(csvContent);
            CsvHeaders(csvContent) == Filter(Map(Trim, SplitOn(line, [DetectSeparator(line)])), NonEmpty)
  {
    var line := FirstLine(csvContent);
    QuoteFreeLine(line, DetectSeparator(line));
  }

  /** The scan of one quote-free line, finished. */
  lemma {:induction false} QuoteFreeLine(line: string, sep: char)
    requires '"' !in line && sep != '"'
    ensures FinishHeaders(CsvScan(line, sep)) == Filter(Map(Trim, SplitOn(line, [sep])), NonEmpty)
  {
    QuoteFreeScan(line, sep);
    QuoteFreeCurrent(line, sep);
    FinishQuoteFree(SplitOn(line, [sep]));
  }

  /** Finishing the scan of a quote-free line keeps the non-empty trimmed pieces. */
  lemma {:induction false} FinishQuoteFree(p: seq<string>)
    requires |p| > 0 && '"' !in p[|p| - 1]
    ensures FinishHeaders(CsvState(Map(Trim, Init(p)), p[|p| - 1], false)) == Filter(Map(Trim, p), NonEmpty)
  {
    var last := p[|p| - 1];
    var heads := Map(Trim, Init(p));
    assert Map(Trim, p) == heads + [Trim(last)] by {
      assert p == Init(p) + [last];
      MapAppend(Trim, Init(p), [last]);
    }
    FilterSnoc(heads, Trim(last), NonEmpty);
    PushedHeader(last);
    if last == "" {
      assert Trim(last) == "";
    }
  }

  /** The scan of a quote-free line: every piece but the last is a trimmed
      header, the last piece is still being read. */
  lemma {:induction false} QuoteFreeScan(line: string, sep: char)
    requires '"' !in line && sep != '"'
    ensures var p := SplitOn(line, [sep]);
            CsvScan(line, sep) == CsvState(Map(Trim, Init(p)), p[|p| - 1], false)
    decreases |line|
  {
    if |line| == 0 {
      assert SplitOn(line, [sep]) == [""];
    } else {
      var pre := line[..|line| - 1];
      var d := line[|line| - 1];
      assert line == pre + [d];
      QuoteFreeScan(pre, sep);
      QuoteFreeCurrent(pre, sep);
      SplitOnSnoc(pre, sep, d);
      QuoteFreeScanSnoc(pre, d, sep, SplitOn(pre, [sep]), SplitOn(line, [sep]));
    }
  }

  /** The quote-free scan extended by one character, given the split of the
      text read so far and the split it becomes. */
  lemma {:induction false} QuoteFreeScanSnoc(pre: string, d: char, sep: char, p0: seq<string>, p1: seq<string>)
    requires |p0| > 0 && '"' !in p0[|p0| - 1] && d != '"' && sep != '"'
    requires CsvScan(pre, sep) == CsvState(Map(Trim, Init(p0)), p0[|p0| - 1], false)
    requires p1 == if d == sep then p0 + [""] else Init(p0) + [p0[|p0| - 1] + [d]]
    ensures CsvScan(pre + [d], sep) == CsvState(Map(Trim, Init(p1)), p1[|p1| - 1], false)
  {
    assert (pre + [d])[..|pre|] == pre;
    QuoteFreeStep(p0, d, sep);
  }

  /** Reading a quote-free line never puts a quote in the field being read. */
  lemma {:induction false} QuoteFreeCurrent(line: string, sep: char)
    requires '"' !in line
    ensures '"' !in CsvScan(line, sep).current
    decreases |line|
  {
    if |line| > 0 {
      var pre := line[..|line| - 1];
      assert forall x :: x in pre ==> x in line;
      QuoteFreeCurrent(pre, sep);
    }
  }

  /** One character of a quote-free line, against the split it extends. */
  lemma {:induction false} QuoteFreeStep(p0: seq<string>, d: char, sep: char)
    requires |p0| > 0 && d != '"' && sep != '"' && '"' !in p0[|p0| - 1]
    ensures var p1 := if d == sep then p0 + [""] else Init(p0) + [p0[|p0| - 1] + [d]];
            CsvStep(CsvState(Map(Trim, Init(p0)), p0[|p0| - 1], false), d, sep)
            == CsvState(Map(Trim, Init(p1)), p1[|p1| - 1], false)
  {
    if d == sep {
      SeparatorStep(p0, sep);
    } else {
      var p1 := Init(p0) + [p0[|p0| - 1] + [d]];
      assert Init(p1) == Init(p0) && p1[|p1| - 1] == p0[|p0| - 1] + [d];
    }
  }

  /** A separator outside quotes turns the piece being read into a header. */
  lemma {:induction false} SeparatorStep(p0: seq<string>, sep: char)
    requires |p0| > 0 && sep != '"' && '"' !in p0[|p0| - 1]
    ensures CsvStep(CsvState(Map(Trim, Init(p0)), p0[|p0| - 1], false), sep, sep)
            == CsvState(Map(Trim, p0), "", false)
  {
    var init := Init(p0);
    var last0 := p0[|p0| - 1];
    assert Map(Trim, p0) == Map(Trim, init) + [Trim(last0)] by {
      assert p0 == init + [last0];
      MapAppend(Trim, init, [last0]);
    }
    PushedHeader(last0);
  }

  /** Inside quotes every character but a quote is copied, separators included. */
  lemma {:induction false} ScanInsideQuotes(pre: string, mid: string, sep: char)
    requires '"' !in mid && CsvScan(pre, sep).inQuotes
    ensures CsvScan(pre + mid, sep) == CsvScan(pre, sep).(current := CsvScan(pre, sep).current + mid)
    decreases |mid|
  {
    if |mid| == 0 {
      assert pre + mid == pre;
    } else {
      var m0 := mid[..|mid| - 1];
      var d := mid[|mid| - 1];
      assert (pre + mid)[..|pre + mid| - 1] == pre + m0;
      ScanInsideQuotes(pre, m0, sep);
      assert CsvScan(pre, sep).current + m0 + [d] == CsvScan(pre, sep).current + mid;
    }
  }

  /** `"mid"`: a field wrapped in double quotes. */
  function Quoted(mid: string): string {
    "\"" + mid + "\""
  }

  /** A quoted field is one header, whatever separators it contains. */
  lemma {:induction false} QuotedFieldIsOneHeader(mid: string)
    requires '"' !in mid && '\n' !in mid && Trim(mid) != ""
    ensures CsvHeaders(Quoted(mid)) == [Trim(mid)]
  {
    QuotedFirstLine(mid);
    QuotedScan(mid, DetectSeparator(Quoted(mid)));
    QuotedFinish(mid);
  }

  lemma {:induction false} QuotedFirstLine(mid: string)
    requires '\n' !in mid
    ensures FirstLine(Quoted(mid)) == Quoted(mid)
  {
    var line := Quoted(mid);
    assert IsTrimmed(line);
    TrimTrimmed(line);
    assert '\n' !in line;
    var r := Before(line, '\n');
    assert |r| == |line|;
  }

  lemma {:induction false} QuotedScan(mid: string, sep: char)
    requires '"' !in mid
    ensures CsvScan(Quoted(mid), sep) == CsvState([], mid, false)
  {
    var line := Quoted(mid);
    assert CsvScan("\"", sep) == CsvState([], "", true) by {
      assert "\""[..0] == "";
    }
    ScanInsideQuotes("\"", mid, sep);
    assert line[..|line| - 1] == "\"" + mid;
  }

  lemma {:induction false} QuotedFinish(mid: string)
    requires '"' !in mid && Trim(mid) != ""
    ensures FinishHeaders(CsvState([], mid, false)) == [Trim(mid)]
  {
    PushedHeader(mid);
    assert Filter([Trim(mid)], NonEmpty) == [Trim(mid)];
  }

  // ---------------------------------------------------------------------------
  // handleCategoryToggle

  /** Remove every occurrence of a selected category, or append an unselected one. */
  function ToggleCategory(selected: seq<string>, category: string): (r: seq<string>)
    ensures forall x :: x in r <==> (x in selected <==> x != category)
    ensures category in selected ==>
              IsSubsequence(r, selected)
              && forall x :: x != category ==> multiset(r)[x] == multiset(selected)[x]
    ensures category !in selected ==> r == selected + [category]
  {
    if category in selected then
      var r := Filter(selected, c => c != category);
      assert forall x :: x != category ==> multiset(r)[x] == multiset(selected)[x] by {
        forall x | x != category ensures multiset(r)[x] == multiset(selected)[x] {
          FilterMultiset(selected, c => c != category, x);
        }
      }
      r
    else
      selected + [category]
  }

  /** Toggling an unselected category twice restores the selection. */
  lemma {:induction false} ToggleTwice(selected: seq<string>, category: string)
    requires category !in selected
    ensures ToggleCategory(ToggleCategory(selected, category), category) == selected
  {
    var p := (c: string) => c != category;
    FilterAppend(selected, [category], p);
    FilterAll(selected, p);
    assert Filter([category], p) == [];
    assert Filter(selected + [category], p) == ToggleCategory(selected + [category], category);
  }

  /** Toggling a selected category twice need not restore the selection: it
      moves to the end. */
  lemma {:induction false} ToggleTwiceReorders()
    ensures ToggleCategory(ToggleCategory(["a", "b"], "a"), "a") == ["b", "a"]
  {
    assert ToggleCategory(["a", "b"], "a") == ["b"] by {
      var r := ToggleCategory(["a", "b"], "a");
      assert r == Filter(["a", "b"], c => c != "a");
      assert ["a", "b"][1..] == ["b"];
      assert ["b"][1..] == [];
    }
  }

  // ---------------------------------------------------------------------------
  // addDataField / removeDataField / updateDataField

  /** The attribute names `keyof DataField`. */
  datatype FieldAttr = Id | Name | Description | Example

  function Attr(f: DataField, a: FieldAttr): string {
    match a
    case Id => f.id
    case Name => f.name
    case Description => f.description
    case Example => f.example
  }

  /** `{ ...dataField, [attr]: value }`. */
  function SetAttr(f: DataField, a: FieldAttr, value: string): (g: DataField)
    ensures Attr(g, a) == value
    ensures forall b :: b != a ==> Attr(g, b) == Attr(f, b)
  {
    match a
    case Id => f.(id := value)
    case Name => f.(name := value)
    case Description => f.(description := value)
    case Example => f.(example := value)
  }

  /** `addDataField`: a blank field with a fresh id (a clock reading in the
      source, a parameter here) goes last. */
  function AddDataField(dataFields: seq<DataField>, newId: string): (r: seq<DataField>)
    ensures |r| == |dataFields| + 1 && r[..|dataFields|] == dataFields
    ensures r[|dataFields|].id == newId && !HasName(r[|dataFields|]) && r[|dataFields|].description == ""
  {
    dataFields + [DataField(newId, "", "", "")]
  }

  /** A freshly added field is invisible downstream: it contributes no name and
      is not kept in a job configuration. */
  lemma {:induction false} AddedFieldIsInert(dataFields: seq<DataField>, newId: string, baseUrl: string, selected: seq<string>)
    ensures GetFieldNames(AddDataField(dataFields, newId)) == GetFieldNames(dataFields)
    ensures CreateScrapingJobConfig(baseUrl, selected, AddDataField(dataFields, newId)).dataFields
         == CreateScrapingJobConfig(baseUrl, selected, dataFields).dataFields
  {
    var blank := DataField(newId, "", "", "");
    FieldNamesCompose(dataFields, [blank], blank);
    JobConfigFields(baseUrl, selected, dataFields, [blank], blank);
    assert GetFieldNames(dataFields) + [] == GetFieldNames(dataFields);
    assert CreateScrapingJobConfig(baseUrl, selected, dataFields).dataFields + []
        == CreateScrapingJobConfig(baseUrl, selected, dataFields).dataFields;
  }

  /** `removeDataField`: drop every field carrying the id. */
  function RemoveDataField(dataFields: seq<DataField>, id: string): (r: seq<DataField>)
    ensures forall f :: f in r <==> f in dataFields && f.id != id
    ensures IsSubsequence(r, dataFields)
    ensures forall f: DataField :: f.id != id ==> multiset(r)[f] == multiset(dataFields)[f]
  {
    var r := Filter(dataFields, OtherId(id));
    assert forall f: DataField :: f.id != id ==> multiset(r)[f] == multiset(dataFields)[f] by {
      forall f: DataField | f.id != id ensures multiset(r)[f] == multiset(dataFields)[f] {
        FilterMultiset(dataFields, OtherId(id), f);
      }
    }
    r
  }

  /** The test `removeDataField` filters with. */
  function OtherId(id: string): DataField -> bool {
    (f: DataField) => f.id != id
  }

  /** `updateDataField`: set one attribute of every field carrying the id. */
  function UpdateDataField(dataFields: seq<DataField>, id: string, a: FieldAttr, value: string): (r: seq<DataField>)
    ensures |r| == |dataFields|
    ensures forall i :: 0 <= i < |r| && dataFields[i].id != id ==> r[i] == dataFields[i]
    ensures forall i :: 0 <= i < |r| && dataFields[i].id == id ==>
              Attr(r[i], a) == value && forall b :: b != a ==> Attr(r[i], b) == Attr(dataFields[i], b)
  {
    Map((f: DataField) => if f.id == id then SetAttr(f, a, value) else f, dataFields)
  }

  /** Repeating an update changes nothing more. */
  lemma {:induction false} UpdateIdempotent(dataFields: seq<DataField>, id: string, a: FieldAttr, value: string)
    ensures UpdateDataField(UpdateDataField(dataFields, id, a, value), id, a, value)
         == UpdateDataField(dataFields, id, a, value)
  {
    var once := UpdateDataField(dataFields, id, a, value);
    var twice := UpdateDataField(once, id, a, value);
    forall i | 0 <= i < |once|
      ensures twice[i] == once[i]
    {
      if once[i].id == id {
        var f := dataFields[i];
        if f.id == id {
          assert once[i] == SetAttr(f, a, value);
          assert SetAttr(SetAttr(f, a, value), a, value) == SetAttr(f, a, value);
        } else {
          assert once[i] == f;
        }
      }
    }
  }

  /** Removing a field undoes any edit of an attribute other than its id. */
  lemma {:induction false} RemoveAfterUpdate(dataFields: seq<DataField>, id: string, a: FieldAttr, value: string)
    requires a != Id
    ensures RemoveDataField(UpdateDataField(dataFields, id, a, value), id) == RemoveDataField(dataFields, id)
  {
    var u := UpdateDataField(dataFields, id, a, value);
    var keep := OtherId(id);
    forall i | 0 <= i < |dataFields|
      ensures keep(u[i]) == keep(dataFields[i]) && (keep(dataFields[i]) ==> u[i] == dataFields[i])
    {
      if dataFields[i].id == id {
        assert Attr(u[i], Id) == Attr(dataFields[i], Id);
      }
    }
    FilterIgnoresEdits(dataFields, u, keep);
  }

  // ---------------------------------------------------------------------------
  // handleNext

  /** The part of the analysis result the step guards read. */
  datatype AnalysisInfo = AnalysisInfo(baseUrl: string)

  /** What pressing "Next" does. */
  datatype NextOutcome =
    | NoChange
    | GoToStep(step: nat)
    | ShowError(message: string)
    | Launch(config: SchemaConfig)

  const ErrIncompleteFields := "Please ensure at least one data field has both a name and description filled out."
  const ErrNoValidFields := "No valid data fields found. Please ensure at least one field has both name and description."
  const ErrStorage := "Failed to save configuration. Please try again."

  /** `handleNext`. `storageOk` says whether writing to `localStorage` succeeds. */
  function HandleNext(step: int, selected: seq<string>, filterResult: Option<UrlPatternMatcher.FilterResult>,
                      dataFields: seq<DataField>, analysis: Option<AnalysisInfo>, storageOk: bool): (r: NextOutcome)
    ensures r == GoToStep(3) <==> step == 2 && |selected| > 0
    ensures r == GoToStep(4) <==> step == 3 && filterResult.Some? && filterResult.value.stats.filteredUrls > 0
    ensures r == ShowError(ErrIncompleteFields) <==>
              step == 4 && |dataFields| > 0 && analysis.Some? && !AnyComplete(dataFields)
    ensures r.Launch? <==> step == 4 && analysis.Some? && AnyComplete(dataFields) && storageOk
    ensures r.Launch? ==> r.config == CreateScrapingJobConfig(analysis.value.baseUrl, selected, dataFields)
    ensures r == ShowError(ErrStorage) <==>
              step == 4 && analysis.Some? && AnyComplete(dataFields) && !storageOk
    ensures r.ShowError? ==> step == 4 && |dataFields| > 0 && analysis.Some?
    ensures r != ShowError(ErrNoValidFields)
    ensures r.GoToStep? ==> (step == 2 || step == 3) && r.step == step + 1
    ensures r == NoChange <==>
              !(step == 2 && |selected| > 0)
              && !(step == 3 && filterResult.Some? && filterResult.value.stats.filteredUrls > 0)
              && !(step == 4 && |dataFields| > 0 && analysis.Some?)
  {
    if step == 2 && |selected| > 0 then GoToStep(3)
    else if step == 3 && filterResult.Some? && filterResult.value.stats.filteredUrls > 0 then GoToStep(4)
    else if step == 4 && |dataFields| > 0 && analysis.Some? then
      var validFields := Filter(dataFields, IsComplete);
      assert |validFields| > 0 <==> AnyComplete(dataFields) by {
        if |validFields| > 0 {
          assert validFields[0] in dataFields;
        }
        if AnyComplete(dataFields) {
          var i :| 0 <= i < |dataFields| && IsComplete(dataFields[i]);
          assert dataFields[i] in validFields;
        }
      }
      if |validFields| == 0 then ShowError(ErrIncompleteFields)
      else
        var config := CreateScrapingJobConfig(analysis.value.baseUrl, selected, dataFields);
        // The second field check is dead code: a complete field is kept.
        assert |config.dataFields| > 0 by {
          var i :| 0 <= i < |dataFields| && IsComplete(dataFields[i]);
          assert dataFields[i] in config.dataFields;
        }
        if |config.dataFields| == 0 then ShowError(ErrNoValidFields)
        else if !storageOk then ShowError(ErrStorage)
        else Launch(config)
    else NoChange
  }

  /** A launched configuration passes both field checks of `validateScrapingConfig`. */
  lemma {:induction false} LaunchedConfigHasFields(step: int, selected: seq<string>, filterResult: Option<UrlPatternMatcher.FilterResult>,
                                dataFields: seq<DataField>, analysis: Option<AnalysisInfo>, storageOk: bool)
    ensures var r := HandleNext(step, selected, filterResult, dataFields, analysis, storageOk);
            r.Launch? ==>
              var errors := ValidateScrapingConfig(r.config).errors;
              ErrNoFields !in errors && ErrNoCompleteField !in errors
  {
    if step == 4 && analysis.Some? {
      ValidatedJobConfig(analysis.value.baseUrl, selected, dataFields);
    }
  }
}
