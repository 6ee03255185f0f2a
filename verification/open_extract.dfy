/** What a built upsert reads as when its extract leaves a quote or a block comment open, and when it reads as meant. */
module OpenExtract {
  import opened Common
  import opened SqlLexer
  import opened InsertStatement
  import opened Executor
  import Text

  /** Read in mode `m` before `rest`, the piece `x` gives these words and leaves the lexer in mode `m'`. */
  ghost predicate Gives(m: Mode, x: string, words: seq<string>, m': Mode, rest: string) {
    && Runs(x + rest, Mask(m, x + rest)) == words + Runs(rest, Mask(m', rest))
    && End(m, x + rest) == End(m', rest)
  }

  lemma GivesBoth(m: Mode, x: string, xs: seq<string>, m': Mode, y: string, ys: seq<string>, m'': Mode, rest: string)
    requires Gives(m, x, xs, m', y + rest) && Gives(m', y, ys, m'', rest)
    ensures Gives(m, x + y, xs + ys, m'', rest)
  {
    assert (x + y) + rest == x + (y + rest);
  }

  lemma HiddenGivesNothing(m: Mode, x: string, m': Mode, rest: string)
    requires Hides(m, x, m', rest)
    ensures Gives(m, x, [], m', rest)
  {
    HiddenRuns(x, rest, Mask(m', rest));
  }

  /** No byte of the text closes this mode. */
  predicate Keeps(m: Mode, x: string) {
    || (m.SingleQuote? && '\'' !in x)
    || (m.DoubleQuote? && '"' !in x)
    || (m.BlockComment? && '*' !in x)
  }

  lemma {:induction false} KeptIsHidden(m: Mode, x: string, rest: string)
    requires Keeps(m, x)
    ensures Hides(m, x, m, rest)
  {
    if x == "" {
      assert x + rest == rest;
    } else {
      var tail := x[1..];
      assert x[0] in x && forall c | c in tail :: c in x;
      KeptIsHidden(m, tail, rest);
      HidesOne(m, x[0], m, tail + rest);
      HidesBoth(m, [x[0]], m, tail, m, rest);
      assert [x[0]] + tail == x;
    }
  }

  // ---------------------------------------------------------------------------------------------
  // Inside a double quote the names are what shows

  /** A name of ASCII letters, digits and underscores. */
  predicate IsName(name: string) {
    name != "" && forall i | 0 <= i < |name| :: IsWord(name[i]) && name[i] < '\U{80}'
  }

  lemma WordGivesItself(w: string, rest: string)
    requires IsName(w) && (rest != "" ==> !IsWord(rest[0]))
    ensures Gives(Plain, w, [Lower(w)], Plain, rest)
  {
    WordAddsItself(w, rest);
  }

  lemma {:induction false} NameIsKept(name: string)
    requires forall i | 0 <= i < |name| :: IsWord(name[i])
    ensures Escaped(name) == name
  {
    if name != "" {
      NameIsKept(name[1..]);
    }
  }

  /** The closing quote of the extract's quote is the opening quote of the name. */
  lemma QuotedNameShows(name: string, rest: string)
    requires IsName(name)
    ensures Gives(DoubleQuote, Quoted(name), [Lower(name)], DoubleQuote, rest)
  {
    NameIsKept(name);
    var close := "\"";
    HidesOne(Plain, '"', DoubleQuote, rest);
    HiddenGivesNothing(Plain, close, DoubleQuote, rest);
    WordGivesItself(name, close + rest);
    GivesBoth(Plain, name, [Lower(name)], Plain, close, [], DoubleQuote, rest);
    var inner := name + close;
    assert Head(inner + rest) == name[0];
    HidesOne(DoubleQuote, '"', Plain, inner + rest);
    HiddenGivesNothing(DoubleQuote, "\"", Plain, inner + rest);
    GivesBoth(DoubleQuote, "\"", [], Plain, inner, [Lower(name)] + [], DoubleQuote, rest);
    assert [] + ([Lower(name)] + []) == [Lower(name)];
  }

  lemma AssignmentShows(name: string, rest: string)
    requires IsName(name)
    ensures Gives(DoubleQuote, Assignment(name), [Lower(name), Lower(name)], DoubleQuote, rest)
  {
    var quoted, middle := Quoted(name), " = " + ("EXCLUDED" + ".");
    QuotedNameShows(name, rest);
    KeptIsHidden(DoubleQuote, middle, quoted + rest);
    HiddenGivesNothing(DoubleQuote, middle, DoubleQuote, quoted + rest);
    GivesBoth(DoubleQuote, middle, [], DoubleQuote, quoted, [Lower(name)], DoubleQuote, rest);
    QuotedNameShows(name, (middle + quoted) + rest);
    GivesBoth(DoubleQuote, quoted, [Lower(name)], DoubleQuote, middle + quoted, [] + [Lower(name)], DoubleQuote, rest);
    assert quoted + (middle + quoted) == Assignment(name);
    assert [Lower(name)] + ([] + [Lower(name)]) == [Lower(name), Lower(name)];
  }

  ghost predicate AlwaysShows(item: string, words: seq<string>) {
    forall rest :: Gives(DoubleQuote, item, words, DoubleQuote, rest)
  }

  function Concat(words: seq<seq<string>>): (all: seq<string>) {
    if words == [] then [] else words[0] + Concat(words[1..])
  }

  lemma ItemShows(item: string, words: seq<string>, tail: string, more: seq<string>, rest: string)
    requires AlwaysShows(item, words) && Gives(DoubleQuote, tail, more, DoubleQuote, rest)
    ensures Gives(DoubleQuote, item + ", " + tail, words + more, DoubleQuote, rest)
  {
    KeptIsHidden(DoubleQuote, ", ", tail + rest);
    HiddenGivesNothing(DoubleQuote, ", ", DoubleQuote, tail + rest);
    GivesBoth(DoubleQuote, ", ", [], DoubleQuote, tail, more, DoubleQuote, rest);
    assert [] + more == more;
    var after := (", " + tail) + rest;
    assert Gives(DoubleQuote, item, words, DoubleQuote, after);
    GivesBoth(DoubleQuote, item, words, DoubleQuote, ", " + tail, more, DoubleQuote, rest);
    assert item + (", " + tail) == item + ", " + tail;
  }

  lemma NothingShows(rest: string)
    ensures Gives(DoubleQuote, "", [], DoubleQuote, rest)
  {
    assert "" + rest == rest;
  }

  lemma {:induction false} ListShows(items: seq<string>, words: seq<seq<string>>, rest: string)
    requires |items| == |words| && forall i | 0 <= i < |items| :: AlwaysShows(items[i], words[i])
    ensures Gives(DoubleQuote, Text.Join(items, ", "), Concat(words), DoubleQuote, rest)
  {
    if |items| == 0 {
      NothingShows(rest);
    } else if |items| == 1 {
      assert AlwaysShows(items[0], words[0]);
      assert Concat(words) == words[0] + Concat([]);
      assert words[0] + [] == words[0];
    } else {
      ListShows(items[1..], words[1..], rest);
      ItemShows(items[0], words[0], Text.Join(items[1..], ", "), Concat(words[1..]), rest);
    }
  }

  // ---------------------------------------------------------------------------------------------
  // The clause the builder adds

  function Singles(names: seq<string>): (words: seq<seq<string>>)
    ensures |words| == |names| && forall i | 0 <= i < |words| :: words[i] == [Lower(names[i])]
  {
    seq(|names|, i requires 0 <= i < |names| => [Lower(names[i])])
  }

  function Doubles(names: seq<string>): (words: seq<seq<string>>)
    ensures |words| == |names| && forall i | 0 <= i < |words| :: words[i] == [Lower(names[i]), Lower(names[i])]
  {
    seq(|names|, i requires 0 <= i < |names| => [Lower(names[i]), Lower(names[i])])
  }

  /** The conflict columns, then each updated column twice. */
  function NameWords(conflicts: seq<string>, updates: seq<string>): (words: seq<string>) {
    Concat(Singles(conflicts)) + Concat(Doubles(updates))
  }

  predicate AllNames(names: seq<string>) {
    forall i | 0 <= i < |names| :: IsName(names[i])
  }

  lemma ConflictsShow(names: seq<string>, rest: string)
    requires AllNames(names)
    ensures Gives(DoubleQuote, Text.Join(QuoteAll(names), ", "), Concat(Singles(names)), DoubleQuote, rest)
  {
    forall i | 0 <= i < |names| ensures AlwaysShows(QuoteAll(names)[i], Singles(names)[i]) {
      forall after ensures Gives(DoubleQuote, Quoted(names[i]), [Lower(names[i])], DoubleQuote, after) {
        QuotedNameShows(names[i], after);
      }
    }
    ListShows(QuoteAll(names), Singles(names), rest);
  }

  lemma UpdatesShow(names: seq<string>, rest: string)
    requires AllNames(names)
    ensures Gives(DoubleQuote, Text.Join(Assignments(names), ", "), Concat(Doubles(names)), DoubleQuote, rest)
  {
    forall i | 0 <= i < |names| ensures AlwaysShows(Assignments(names)[i], Doubles(names)[i]) {
      forall after
        ensures Gives(DoubleQuote, Assignment(names[i]), [Lower(names[i]), Lower(names[i])], DoubleQuote, after)
      {
        AssignmentShows(names[i], after);
      }
    }
    ListShows(Assignments(names), Doubles(names), rest);
  }

  lemma KeptThen(text: string, x: string, words: seq<string>, rest: string)
    requires Keeps(DoubleQuote, text) && Gives(DoubleQuote, x, words, DoubleQuote, rest)
    ensures Gives(DoubleQuote, text + x, words, DoubleQuote, rest)
  {
    KeptIsHidden(DoubleQuote, text, x + rest);
    HiddenGivesNothing(DoubleQuote, text, DoubleQuote, x + rest);
    GivesBoth(DoubleQuote, text, [], DoubleQuote, x, words, DoubleQuote, rest);
    assert [] + words == words;
  }

  lemma ClauseShows(conflicts: seq<string>, updates: seq<string>)
    requires AllNames(conflicts) && AllNames(updates)
    ensures Gives(DoubleQuote, "\n" + OnConflict(conflicts, updates), NameWords(conflicts, updates), DoubleQuote, "")
  {
    var cs, us := Text.Join(QuoteAll(conflicts), ", "), Text.Join(Assignments(updates), ", ");
    UpdatesShow(updates, "");
    KeptThen(") DO UPDATE SET ", us, Concat(Doubles(updates)), "");
    var tail := ") DO UPDATE SET " + us;
    ConflictsShow(conflicts, tail + "");
    GivesBoth(DoubleQuote, cs, Concat(Singles(conflicts)), DoubleQuote, tail, Concat(Doubles(updates)), DoubleQuote,
              "");
    ClauseOf(conflicts, updates, cs, us, NameWords(conflicts, updates));
  }

  lemma ClauseOf(conflicts: seq<string>, updates: seq<string>, cs: string, us: string, words: seq<string>)
    requires cs == Text.Join(QuoteAll(conflicts), ", ") && us == Text.Join(Assignments(updates), ", ")
    requires Gives(DoubleQuote, cs + (") DO UPDATE SET " + us), words, DoubleQuote, "")
    ensures Gives(DoubleQuote, "\n" + OnConflict(conflicts, updates), words, DoubleQuote, "")
  {
    KeptThen("ON CONFLICT (", cs + (") DO UPDATE SET " + us), words, "");
    LineText(conflicts, updates, cs, us);
    KeptThen("\n", OnConflict(conflicts, updates), words, "");
  }

  lemma LineText(conflicts: seq<string>, updates: seq<string>, cs: string, us: string)
    requires cs == Text.Join(QuoteAll(conflicts), ", ") && us == Text.Join(Assignments(updates), ", ")
    ensures OnConflict(conflicts, updates) == "ON CONFLICT (" + (cs + (") DO UPDATE SET " + us))
  {
    ClauseText(cs, us);
    Regrouped("ON CONFLICT (", cs, ") DO UPDATE SET ", us);
  }

  lemma Regrouped(a: string, b: string, c: string, d: string)
    ensures a + b + c + d == a + (b + (c + d))
  {
  }

  // ---------------------------------------------------------------------------------------------
  // Inside a single quote or a block comment nothing shows

  lemma {:induction false} JoinLacks(items: seq<string>, sep: string, c: char)
    requires c !in sep && forall i | 0 <= i < |items| :: c !in items[i]
    ensures c !in Text.Join(items, sep)
  {
    if |items| > 1 {
      JoinLacks(items[1..], sep, c);
    }
  }

  lemma QuotedLacks(name: string, c: char)
    requires IsName(name) && (c == '\'' || c == '*')
    ensures c !in Quoted(name)
  {
    NameIsKept(name);
    assert forall d | d in name :: IsWord(d);
  }

  lemma AssignmentLacks(name: string, c: char)
    requires IsName(name) && (c == '\'' || c == '*')
    ensures c !in Assignment(name)
  {
    QuotedLacks(name, c);
    LineLacks(Quoted(name), " = ", "EXCLUDED", ".", Quoted(name), c);
  }

  lemma ConflictsLack(names: seq<string>, c: char)
    requires AllNames(names) && (c == '\'' || c == '*')
    ensures c !in Text.Join(QuoteAll(names), ", ")
  {
    forall i | 0 <= i < |names| ensures c !in QuoteAll(names)[i] {
      QuotedLacks(names[i], c);
    }
    JoinLacks(QuoteAll(names), ", ", c);
  }

  lemma UpdatesLack(names: seq<string>, c: char)
    requires AllNames(names) && (c == '\'' || c == '*')
    ensures c !in Text.Join(Assignments(names), ", ")
  {
    forall i | 0 <= i < |names| ensures c !in Assignments(names)[i] {
      AssignmentLacks(names[i], c);
    }
    JoinLacks(Assignments(names), ", ", c);
  }

  lemma ClauseLacks(conflicts: seq<string>, updates: seq<string>, c: char)
    requires AllNames(conflicts) && AllNames(updates) && (c == '\'' || c == '*')
    ensures c !in "\n" + OnConflict(conflicts, updates)
  {
    var cs, us := Text.Join(QuoteAll(conflicts), ", "), Text.Join(Assignments(updates), ", ");
    ConflictsLack(conflicts, c);
    UpdatesLack(updates, c);
    LineText(conflicts, updates, cs, us);
    LineLacks("\n", "ON CONFLICT (", cs, ") DO UPDATE SET ", us, c);
  }

  lemma LineLacks(a: string, b: string, cs: string, d: string, us: string, c: char)
    requires c !in a && c !in b && c !in cs && c !in d && c !in us
    ensures c !in a + (b + (cs + (d + us)))
  {
  }

  // ---------------------------------------------------------------------------------------------
  // The whole statement

  /** What a line after an unclosed text reads as. */
  lemma NextLineReads(head: string, line: string, words: seq<string>)
    requires !EndsOutside(head) && Gives(End(Plain, head), "\n" + line, words, End(Plain, head), "")
    ensures Tokens(head + "\n" + line) == Tokens(head) + words
  {
    var m, y := End(Plain, head), "\n" + line;
    EndsOnAWholeMark(Plain, head);
    assert head + "\n" + line == head + y && y + "" == y;
    MaskJoin(Plain, head, y);
    RunsJoin(head, y, Mask(Plain, head), Mask(m, y));
    assert words + [] == words;
  }

  /** The words an upsert's conflict clause adds, by the mode the extract ends in. */
  function ClauseWords(m: Mode, conflicts: seq<string>, updates: seq<string>): (words: seq<string>) {
    match m
    case Plain => ConflictWords(|updates|)
    case LineComment => ConflictWords(|updates|)
    case DoubleQuote => NameWords(conflicts, updates)
    case _ => []
  }

  lemma ClauseInMode(m: Mode, conflicts: seq<string>, updates: seq<string>)
    requires AllNames(conflicts) && AllNames(updates) && (m.SingleQuote? || m.BlockComment? || m.DoubleQuote?)
    ensures Gives(m, "\n" + OnConflict(conflicts, updates), ClauseWords(m, conflicts, updates), m, "")
  {
    if m.DoubleQuote? {
      ClauseShows(conflicts, updates);
    } else {
      ClauseLacks(conflicts, updates, if m.SingleQuote? then '\'' else '*');
      KeptIsHidden(m, "\n" + OnConflict(conflicts, updates), "");
      HiddenGivesNothing(m, "\n" + OnConflict(conflicts, updates), m, "");
    }
  }

  /**
   * The words of an upsert in every case: the clause as written when the extract closes its quotes and block comments,
   * nothing of it inside a single quote or a block comment, and just its names inside a double quote.
   */
  lemma UpsertTokens(table: seq<string>, columns: seq<string>, extract: string, conflicts: seq<string>,
                     updates: seq<string>)
    requires AllNames(conflicts) && AllNames(updates)
    ensures Tokens(Append(table, columns) + ("\n" + extract) + "\n" + OnConflict(conflicts, updates))
         == ["insert", "into"] + Tokens(extract) + ClauseWords(End(Plain, extract), conflicts, updates)
  {
    if EndsOutside(extract) {
      UpsertWords(table, columns, extract, conflicts, updates);
    } else {
      var m := End(Plain, extract);
      EndsOnAWholeMark(Plain, extract);
      AppendKeepsTheExtract(table, columns, extract);
      ClauseInMode(m, conflicts, updates);
      NextLineReads(Append(table, columns) + ("\n" + extract), OnConflict(conflicts, updates),
                    ClauseWords(m, conflicts, updates));
    }
  }

  lemma {:induction false} ConcatSize(words: seq<seq<string>>, n: nat)
    requires forall i | 0 <= i < |words| :: |words[i]| == n
    ensures |Concat(words)| == n * |words|
  {
    if words != [] {
      ConcatSize(words[1..], n);
    }
  }

  /** The names are never the clause: the first updated column comes twice where the clause has two different words. */
  lemma NamesAreNotTheClause(conflicts: seq<string>, updates: seq<string>)
    requires updates != []
    ensures NameWords(conflicts, updates) != ConflictWords(|updates|)
  {
    var n, k := |conflicts|, |updates|;
    ConcatSize(Singles(conflicts), 1);
    ConcatSize(Doubles(updates), 2);
    RepeatedSize("excluded", k);
    var words := NameWords(conflicts, updates);
    assert Concat(Doubles(updates)) == Doubles(updates)[0] + Concat(Doubles(updates)[1..]);
    assert words[n] == words[n + 1];
  }

  lemma {:induction false} RepeatedSize(word: string, n: nat)
    ensures |Repeated([word], n)| == n && forall i | 0 <= i < n :: Repeated([word], n)[i] == word
  {
    if n > 0 {
      RepeatedSize(word, n - 1);
    }
  }

  predicate HasAsciiNames(spec: PipelineSpec) {
    && (forall column | column in spec.conflictColumns :: IsAscii(column))
    && (forall column | column in Updates(spec) :: IsAscii(column))
  }

  lemma AcceptedAreNames(foreign: string -> bool, columns: seq<string>)
    requires AllColumns(foreign, columns) && forall column | column in columns :: IsAscii(column)
    ensures AllNames(columns)
  {
    forall i | 0 <= i < |columns| ensures IsName(columns[i]) {
      assert columns[i] in columns && IsColumn(foreign, columns[i]);
    }
  }

  lemma NamesOfAccepted(foreign: string -> bool, spec: PipelineSpec)
    requires (forall fault :: !HasFault(foreign, spec, fault)) && WriteMode(spec) == "upsert" && HasAsciiNames(spec)
    ensures AllNames(spec.conflictColumns) && AllNames(Updates(spec)) && Updates(spec) != []
  {
    assert !HasFault(foreign, spec, BadConflictColumn) && !HasFault(foreign, spec, BadUpdateColumn);
    assert !HasFault(foreign, spec, NoUpdateColumns);
    AcceptedAreNames(foreign, spec.conflictColumns);
    AcceptedAreNames(foreign, Updates(spec));
  }

  /** An accepted upsert reads as meant if and only if its extract closes its quotes and block comments. */
  lemma UpsertReadsAsMeantIff(foreign: string -> bool, spec: PipelineSpec)
    requires (forall fault :: !HasFault(foreign, spec, fault)) && WriteMode(spec) == "upsert" && HasAsciiNames(spec)
    ensures Tokens(Statement(spec))
            == ["insert", "into"] + Tokens(Trimmed(spec.extractSql)) + ConflictWords(|Updates(spec)|)
            <==> EndsOutside(Trimmed(spec.extractSql))
  {
    var table, extract := Text.Split(spec.targetTable, '.'), Trimmed(spec.extractSql);
    var conflicts, updates := spec.conflictColumns, Updates(spec);
    NamesOfAccepted(foreign, spec);
    UpsertTokens(table, spec.targetColumns, extract, conflicts, updates);
    OpenWordsDiffer(extract, conflicts, updates, ["insert", "into"] + Tokens(extract));
  }

  lemma OpenWordsDiffer(extract: string, conflicts: seq<string>, updates: seq<string>, front: seq<string>)
    requires updates != []
    ensures front + ClauseWords(End(Plain, extract), conflicts, updates) == front + ConflictWords(|updates|)
            <==> EndsOutside(extract)
  {
    var words := ClauseWords(End(Plain, extract), conflicts, updates);
    NamesAreNotTheClause(conflicts, updates);
    if front + words == front + ConflictWords(|updates|) {
      var meant := ConflictWords(|updates|);
      assert words == (front + words)[|front|..] == (front + meant)[|front|..] == meant;
    }
  }

  // ---------------------------------------------------------------------------------------------
  // An accepted extract with an open quote

  lemma OpenExtractReads(rest: string)
    requires rest == " \"a"
    ensures Tokens("select" + rest) == ["select"] && End(Plain, "select" + rest).DoubleQuote?
  {
    assert Lower("select") == "select";
    WordAddsItself("select", rest);
    PunctuationAddsNothing(" ", "\"a");
    assert rest == " " + "\"a" && "\"a"[1..] == "a" && "a"[1..] == "";
    assert Mask(Plain, "\"a") == [false, false];
  }

  lemma NothingToTrim(s: string)
    requires s != "" && !IsAsciiSpace(s[0]) && !IsAsciiSpace(s[|s| - 1]) && s[|s| - 1] != ';'
    ensures Trimmed(s) == s
  {
  }

  lemma StartsWithSelect(sql: string)
    requires sql == "select" + " \"a"
    ensures "select " <= Lower(sql)
  {
  }

  lemma OpenExtractIsQuery(sql: string)
    requires sql == "select" + " \"a"
    ensures Trimmed(sql) == sql && IsQuery(sql) && Tokens(sql) == ["select"] && End(Plain, sql).DoubleQuote?
  {
    OpenExtractReads(" \"a");
    NothingToTrim(sql);
    StartsWithSelect(sql);
  }

  lemma IsUpsert(spec: PipelineSpec)
    requires spec.writeMode == "upsert"
    ensures WriteMode(spec) == "upsert"
  {
    assert Lower("upsert") == "upsert";
  }

  /** An upsert of one column with an extract that opens a double quote and does not close it. */
  predicate IsOpenUpsert(spec: PipelineSpec, table: string, column: string, conflict: string) {
    spec == PipelineSpec("select" + " \"a", table, [column], "upsert", [conflict], [column])
  }

  /** The builder accepts it, whatever the names. */
  lemma OpenUpsertIsAccepted(foreign: string -> bool, spec: PipelineSpec, table: string, column: string,
                             conflict: string)
    requires IsOpenUpsert(spec, table, column, conflict)
    requires IsIdentifier(foreign, table) && IsColumn(foreign, column) && IsColumn(foreign, conflict)
    ensures forall fault :: !HasFault(foreign, spec, fault)
  {
    OpenExtractIsQuery(spec.extractSql);
    IsUpsert(spec);
  }

  lemma OneNameWords(conflict: string, update: string)
    ensures NameWords([conflict], [update]) == [Lower(conflict), Lower(update), Lower(update)]
  {
    var singles, doubles := Singles([conflict]), Doubles([update]);
    assert singles[1..] == [] && doubles[1..] == [];
    assert Concat(singles) == singles[0] + Concat(singles[1..]);
    assert Concat(doubles) == doubles[0] + Concat(doubles[1..]);
  }

  lemma OneNameUpsert(table: seq<string>, columns: seq<string>, sql: string, conflict: string, update: string)
    requires Tokens(sql) == ["select"] && End(Plain, sql).DoubleQuote? && IsName(conflict) && IsName(update)
    ensures Tokens(Append(table, columns) + ("\n" + sql) + "\n" + OnConflict([conflict], [update]))
         == ["insert", "into", "select"] + [Lower(conflict), Lower(update), Lower(update)]
  {
    UpsertTokens(table, columns, sql, [conflict], [update]);
    OneNameWords(conflict, update);
  }

  lemma UpsertText(spec: PipelineSpec, sql: string)
    requires WriteMode(spec) == "upsert" && Trimmed(spec.extractSql) == sql && spec.updateColumns != []
    ensures Statement(spec)
         == Append(Text.Split(spec.targetTable, '.'), spec.targetColumns) + ("\n" + sql) + "\n"
            + OnConflict(spec.conflictColumns, spec.updateColumns)
  {
  }

  /** Its statement reads as insert, into, select and then the bare names. */
  lemma OpenUpsertReadsAsNames(spec: PipelineSpec, table: string, column: string, conflict: string)
    requires IsOpenUpsert(spec, table, column, conflict) && IsName(column) && IsName(conflict)
    ensures Tokens(Statement(spec))
         == ["insert", "into", "select"] + [Lower(conflict), Lower(column), Lower(column)]
  {
    OpenExtractIsQuery(spec.extractSql);
    IsUpsert(spec);
    UpsertText(spec, spec.extractSql);
    OneNameUpsert(Text.Split(spec.targetTable, '.'), spec.targetColumns, spec.extractSql, conflict, column);
  }
}
