/** The ETL executor's statement builder. */
module Executor {
  import opened Common
  import opened SqlLexer
  import opened InsertStatement
  import Text

  datatype PipelineSpec = PipelineSpec(
    extractSql: string,
    targetTable: string,
    targetColumns: seq<string>,
    writeMode: string,
    conflictColumns: seq<string>,
    updateColumns: seq<string>)

  datatype Fault =
    | BadWriteMode
    | NoConflictColumns
    | BadTable
    | BadTargetColumn
    | BadConflictColumn
    | BadUpdateColumn
    | NoUpdateColumns
    | BadExtract

  // ---------------------------------------------------------------------------------------------
  // The extract

  predicate IsAsciiSpace(c: char) {
    c in {'\t', '\n', '\U{000B}', '\U{000C}', '\r', ' '}
  }

  function TrimSpace(s: string): (t: string) {
    Text.Trim(s, IsAsciiSpace)
  }

  function TrimSemicolon(s: string): (t: string) {
    if s != "" && s[|s| - 1] == ';' then s[..|s| - 1] else s
  }

  predicate IsForbidden(token: string) {
    token in {"insert", "update", "delete", "merge", "create", "alter", "drop", "truncate", "copy", "grant", "revoke",
              "call", "do", "vacuum", "analyze"}
  }

  function Trimmed(sql: string): (t: string) {
    TrimSpace(TrimSemicolon(TrimSpace(sql)))
  }

  /** A query by its first word, with no forbidden word outside its quotes and comments. */
  predicate IsQuery(sql: string) {
    && ("select " <= Lower(sql) || "with " <= Lower(sql))
    && Tokens(sql) != [] && (Tokens(sql)[0] == "select" || Tokens(sql)[0] == "with")
    && forall token | token in Tokens(sql) :: !IsForbidden(token)
  }

  method NormalizeExtractSql(sql: string) returns (r: Result<string, Fault>)
    ensures r.Ok? <==> IsQuery(Trimmed(sql))
    ensures r.Ok? ==> r.value == Trimmed(sql)
    ensures r.Err? ==> r.error == BadExtract
  {
    var t := TrimSpace(sql);
    t := TrimSemicolon(t);
    t := TrimSpace(t);
    var lower := Lower(t);
    if !("select " <= lower) && !("with " <= lower) {
      return Err(BadExtract);
    }
    var tokens := SqlTokens(t);
    if |tokens| == 0 {
      return Err(BadExtract);
    }
    if tokens[0] != "select" && tokens[0] != "with" {
      return Err(BadExtract);
    }
    for i := 0 to |tokens|
      invariant forall j | 0 <= j < i :: !IsForbidden(tokens[j])
    {
      if IsForbidden(tokens[i]) {
        return Err(BadExtract);
      }
    }
    return Ok(t);
  }

  // ---------------------------------------------------------------------------------------------
  // Identifiers

  predicate IsAscii(s: string) {
    forall i | 0 <= i < |s| :: s[i] < '\U{80}'
  }

  /** Letters, digits and underscores, not starting with a digit; `foreign` decides names with non-ASCII letters. */
  predicate IsPart(foreign: string -> bool, part: string) {
    if !IsAscii(part) then foreign(part)
    else
      && part != "" && !('0' <= part[0] <= '9')
      && forall i | 0 <= i < |part| :: IsWord(part[i])
  }

  predicate IsIdentifier(foreign: string -> bool, value: string) {
    |Text.Split(value, '.')| <= 3 && forall part | part in Text.Split(value, '.') :: IsPart(foreign, part)
  }

  predicate IsColumn(foreign: string -> bool, value: string) {
    Text.Split(value, '.') == [value] && IsPart(foreign, value)
  }

  predicate AllColumns(foreign: string -> bool, columns: seq<string>) {
    forall column | column in columns :: IsColumn(foreign, column)
  }

  /** An accepted name comes back as its parts, which joined by dots give the name again. */
  method ParseIdentifier(foreign: string -> bool, value: string) returns (r: Option<seq<string>>)
    ensures r.Some? <==> IsIdentifier(foreign, value)
    ensures r.Some? ==> 1 <= |r.value| <= 3 && r.value == Text.Split(value, '.') && Text.Join(r.value, ".") == value
  {
    var parts := Text.Split(value, '.');
    Text.SplitJoins(value, '.');
    if |parts| > 3 {
      return None;
    }
    var valid := AllParts(foreign, parts);
    return if valid then Some(parts) else None;
  }

  method AllParts(foreign: string -> bool, parts: seq<string>) returns (valid: bool)
    ensures valid <==> forall part | part in parts :: IsPart(foreign, part)
  {
    for i := 0 to |parts|
      invariant forall j | 0 <= j < i :: IsPart(foreign, parts[j])
    {
      if !IsPart(foreign, parts[i]) {
        return false;
      }
    }
    return true;
  }

  function QuoteAll(parts: seq<string>): (q: seq<string>)
    ensures |q| == |parts| && forall i | 0 <= i < |q| :: q[i] == Quoted(parts[i])
  {
    seq(|parts|, i requires 0 <= i < |parts| => Quoted(parts[i]))
  }

  /** pgx's Identifier.Sanitize. */
  function Sanitize(parts: seq<string>): (s: string) {
    Text.Join(QuoteAll(parts), ".")
  }

  lemma OneDotlessPart(value: string)
    requires |Text.Split(value, '.')| == 1
    ensures Text.Split(value, '.') == [value] && Sanitize([value]) == Quoted(value)
  {
    Text.SplitJoins(value, '.');
  }

  method SanitizeColumns(foreign: string -> bool, columns: seq<string>) returns (r: Option<seq<string>>)
    ensures r.Some? <==> AllColumns(foreign, columns)
    ensures r.Some? ==> r.value == QuoteAll(columns)
  {
    var sanitized: seq<string> := [];
    for i := 0 to |columns|
      invariant |sanitized| == i
      invariant forall j | 0 <= j < i :: IsColumn(foreign, columns[j]) && sanitized[j] == Quoted(columns[j])
    {
      var identifier := ParseIdentifier(foreign, columns[i]);
      if identifier.None? || |identifier.value| != 1 {
        assert !IsColumn(foreign, columns[i]);
        return None;
      }
      OneDotlessPart(columns[i]);
      sanitized := sanitized + [Sanitize(identifier.value)];
    }
    return Some(sanitized);
  }

  function NonConflict(target: seq<string>, conflicts: seq<string>): (r: seq<string>) {
    if target == [] then []
    else NonConflict(target[..|target| - 1], conflicts)
         + (if target[|target| - 1] in conflicts then [] else [target[|target| - 1]])
  }

  /** Exactly the columns outside the conflict list are kept, each as often as it was listed. */
  lemma {:induction false} NonConflictKeeps(target: seq<string>, conflicts: seq<string>, column: string)
    ensures multiset(NonConflict(target, conflicts))[column]
         == if column in conflicts then 0 else multiset(target)[column]
  {
    if target != [] {
      var init := target[..|target| - 1];
      NonConflictKeeps(init, conflicts, column);
      assert target == init + [target[|target| - 1]];
    }
  }

  method NonConflictColumns(target: seq<string>, conflictColumns: seq<string>) returns (columns: seq<string>)
    ensures columns == NonConflict(target, conflictColumns)
  {
    var conflicts: set<string> := {};
    for i := 0 to |conflictColumns|
      invariant conflicts == set j | 0 <= j < i :: conflictColumns[j]
    {
      conflicts := conflicts + {conflictColumns[i]};
    }
    columns := [];
    for i := 0 to |target|
      invariant columns == NonConflict(target[..i], conflictColumns)
    {
      assert target[..i + 1][..i] == target[..i];
      if target[i] !in conflicts {
        columns := columns + [target[i]];
      }
    }
    assert target[..|target|] == target;
  }

  // ---------------------------------------------------------------------------------------------
  // The statement

  function Assignment(column: string): (s: string) {
    Quoted(column) + (" = " + ("EXCLUDED" + ("." + Quoted(column))))
  }

  function Assignments(columns: seq<string>): (a: seq<string>)
    ensures |a| == |columns| && forall i | 0 <= i < |a| :: a[i] == Assignment(columns[i])
  {
    seq(|columns|, i requires 0 <= i < |columns| => Assignment(columns[i]))
  }

  function Append(table: seq<string>, columns: seq<string>): (s: string) {
    "INSERT" + (" " + ("INTO" + (" " + (Sanitize(table) + (" (" + (Text.Join(QuoteAll(columns), ", ") + ")"))))))
  }

  function OnConflict(conflicts: seq<string>, updates: seq<string>): (s: string) {
    "ON" + (" " + ("CONFLICT" + (" (" + (Text.Join(QuoteAll(conflicts), ", ") + (") " + ("DO" + (" " + ("UPDATE" + (" "
    + ("SET" + (" " + Text.Join(Assignments(updates), ", "))))))))))))
  }

  /** The item adds these words in front of anything but a double quote. */
  ghost predicate AlwaysAdds(item: string, words: seq<string>) {
    forall rest {:trigger Adds(item, words, rest)} | Head(rest) != '"' :: Adds(item, words, rest)
  }

  lemma ItemAdds(item: string, words: seq<string>, sep: string, tail: string, more: seq<string>, rest: string)
    requires sep != "" && (forall i | 0 <= i < |sep| :: IsPunctuation(sep[i]))
    requires AlwaysAdds(item, words) && Adds(tail, more, rest)
    ensures Adds(item + sep + tail, words + more, rest)
  {
    PunctuationAddsNothing(sep, tail + rest);
    AddsBoth(sep, [], tail, more, rest);
    assert [] + more == more;
    var after := (sep + tail) + rest;
    assert Head(after) == sep[0];
    AddsBoth(item, words, sep + tail, more, rest);
    assert item + (sep + tail) == item + sep + tail;
  }

  lemma NothingAdds(rest: string)
    ensures Adds("", [], rest)
  {
    assert "" + rest == rest;
  }

  lemma {:induction false} ListAdds(items: seq<string>, words: seq<string>, sep: string, rest: string)
    requires sep != "" && (forall i | 0 <= i < |sep| :: IsPunctuation(sep[i])) && Head(rest) != '"'
    requires forall i | 0 <= i < |items| :: AlwaysAdds(items[i], words)
    ensures Adds(Text.Join(items, sep), Repeated(words, |items|), rest)
  {
    if |items| == 0 {
      NoItemAdds(items, words, sep, rest);
    } else if |items| == 1 {
      OnlyItemAdds(items, words, sep, rest);
    } else {
      ListAdds(items[1..], words, sep, rest);
      FirstItemAdds(items, words, sep, rest);
    }
  }

  lemma FirstItemAdds(items: seq<string>, words: seq<string>, sep: string, rest: string)
    requires sep != "" && (forall i | 0 <= i < |sep| :: IsPunctuation(sep[i])) && |items| > 1
    requires AlwaysAdds(items[0], words) && Adds(Text.Join(items[1..], sep), Repeated(words, |items| - 1), rest)
    ensures Adds(Text.Join(items, sep), Repeated(words, |items|), rest)
  {
    var tail, more := Text.Join(items[1..], sep), Repeated(words, |items| - 1);
    ItemAdds(items[0], words, sep, tail, more, rest);
    assert Text.Join(items, sep) == items[0] + sep + tail && Repeated(words, |items|) == words + more;
  }

  lemma NoItemAdds(items: seq<string>, words: seq<string>, sep: string, rest: string)
    requires items == []
    ensures Adds(Text.Join(items, sep), Repeated(words, |items|), rest)
  {
    NothingAdds(rest);
  }

  lemma OnlyItemAdds(items: seq<string>, words: seq<string>, sep: string, rest: string)
    requires |items| == 1 && AlwaysAdds(items[0], words) && Head(rest) != '"'
    ensures Adds(Text.Join(items, sep), Repeated(words, |items|), rest)
  {
    assert Repeated(words, 1) == words + Repeated(words, 0) == words;
    assert Adds(items[0], words, rest);
  }

  function Repeated(words: seq<string>, n: nat): (r: seq<string>) {
    if n == 0 then [] else words + Repeated(words, n - 1)
  }

  lemma {:induction false} RepeatedNothing(n: nat)
    ensures Repeated([], n) == []
  {
    if n > 0 {
      RepeatedNothing(n - 1);
    }
  }

  /** A list of quoted names adds no word. */
  lemma NamesAddNothing(names: seq<string>, sep: string, rest: string)
    requires sep != "" && (forall i | 0 <= i < |sep| :: IsPunctuation(sep[i])) && Head(rest) != '"'
    ensures Adds(Text.Join(QuoteAll(names), sep), [], rest)
  {
    var items := QuoteAll(names);
    forall i | 0 <= i < |items| ensures AlwaysAdds(items[i], []) {
      forall after | Head(after) != '"' ensures Adds(items[i], [], after) {
        QuotedAddsNothing(names[i], after);
      }
    }
    ListAdds(items, [], sep, rest);
    RepeatedNothing(|items|);
  }

  lemma AssignmentAdds(column: string, rest: string)
    requires Head(rest) != '"'
    ensures Adds(Assignment(column), ["excluded"], rest)
  {
    var quoted := Quoted(column);
    QuotedAddsNothing(column, rest);
    PunctuationAddsNothing(".", quoted + rest);
    AddsBoth(".", [], quoted, [], rest);
    var dotted := "." + quoted;
    Excluded(dotted + rest);
    AddsBoth("EXCLUDED", ["excluded"], dotted, [], rest);
    var tail := "EXCLUDED" + dotted;
    PunctuationAddsNothing(" = ", tail + rest);
    AddsBoth(" = ", [], tail, ["excluded"], rest);
    QuotedAddsNothing(column, (" = " + tail) + rest);
    AddsBoth(quoted, [], " = " + tail, ["excluded"], rest);
  }

  lemma Excluded(rest: string)
    requires rest != "" && rest[0] == '.'
    ensures Adds("EXCLUDED", ["excluded"], rest)
  {
    WordAddsItself("EXCLUDED", rest);
    assert Lower("EXCLUDED") == "excluded";
  }

  predicate IsSeparator(s: string) {
    s != "" && forall i | 0 <= i < |s| :: IsPunctuation(s[i])
  }

  predicate IsKeyword(w: string, word: string) {
    w != "" && (forall i | 0 <= i < |w| :: IsWord(w[i])) && Lower(w) == word
  }

  lemma KeywordAdds(w: string, word: string, sep: string, tail: string, more: seq<string>, rest: string)
    requires IsKeyword(w, word) && IsSeparator(sep) && Adds(tail, more, rest)
    ensures Adds(w + (sep + tail), [word] + more, rest)
  {
    PunctuationAddsNothing(sep, tail + rest);
    AddsBoth(sep, [], tail, more, rest);
    assert [] + more == more;
    var after := (sep + tail) + rest;
    assert after[0] == sep[0];
    WordAddsItself(w, after);
    AddsBoth(w, [word], sep + tail, more, rest);
  }

  lemma NamesAdd(names: seq<string>, sep: string, close: string, tail: string, more: seq<string>, rest: string)
    requires IsSeparator(sep) && IsSeparator(close) && Adds(tail, more, rest)
    ensures Adds(Text.Join(QuoteAll(names), sep) + (close + tail), more, rest)
  {
    PunctuationAddsNothing(close, tail + rest);
    AddsBoth(close, [], tail, more, rest);
    assert [] + more == more;
    var after := (close + tail) + rest;
    assert Head(after) == close[0];
    NamesAddNothing(names, sep, after);
    AddsBoth(Text.Join(QuoteAll(names), sep), [], close + tail, more, rest);
  }

  lemma ColumnsAdd(columns: seq<string>, rest: string)
    ensures Adds(Text.Join(QuoteAll(columns), ", ") + ")", [], rest)
  {
    NothingAdds(rest);
    NamesAdd(columns, ", ", ")", "", [], rest);
    assert ")" + "" == ")";
  }

  lemma TargetAdds(table: seq<string>, columns: string, rest: string)
    requires Adds(columns, [], rest)
    ensures Adds(Sanitize(table) + (" (" + columns), [], rest)
  {
    NamesAdd(table, ".", " (", columns, [], rest);
  }

  lemma TwoKeywordsAdd(w: string, word: string, v: string, verb: string, sep: string, tail: string,
                       more: seq<string>, rest: string)
    requires IsKeyword(w, word) && IsKeyword(v, verb) && IsSeparator(sep) && Adds(tail, more, rest)
    ensures Adds(w + (sep + (v + (sep + tail))), [word] + ([verb] + more), rest)
  {
    KeywordAdds(v, verb, sep, tail, more, rest);
    KeywordAdds(w, word, sep, v + (sep + tail), [verb] + more, rest);
  }

  /** The framing words, in capitals in the statement and in lower case as tokens. */
  lemma Keywords()
    ensures IsKeyword("INSERT", "insert") && IsKeyword("INTO", "into")
    ensures IsKeyword("ON", "on") && IsKeyword("CONFLICT", "conflict")
    ensures IsKeyword("DO", "do") && IsKeyword("UPDATE", "update") && IsKeyword("SET", "set")
  {
    assert Lower("INSERT") == "insert" && Lower("INTO") == "into" && Lower("ON") == "on";
    assert Lower("CONFLICT") == "conflict" && Lower("DO") == "do" && Lower("UPDATE") == "update";
    assert Lower("SET") == "set";
  }

  /** The head of the statement adds its two keywords and nothing else. */
  lemma AppendAdds(table: seq<string>, columns: seq<string>, rest: string)
    ensures Adds(Append(table, columns), ["insert", "into"], rest)
  {
    var columnList := Text.Join(QuoteAll(columns), ", ") + ")";
    ColumnsAdd(columns, rest);
    var target := Sanitize(table) + (" (" + columnList);
    TargetAdds(table, columnList, rest);
    Keywords();
    TwoKeywordsAdd("INSERT", "insert", "INTO", "into", " ", target, [], rest);
    assert ["insert"] + (["into"] + []) == ["insert", "into"];
  }

  function ConflictWords(updates: nat): (words: seq<string>) {
    ["on", "conflict", "do", "update", "set"] + Repeated(["excluded"], updates)
  }

  lemma AssignmentAlwaysAdds(column: string)
    ensures AlwaysAdds(Assignment(column), ["excluded"])
  {
    forall rest | Head(rest) != '"' ensures Adds(Assignment(column), ["excluded"], rest) {
      AssignmentAdds(column, rest);
    }
  }

  lemma UpdatesAdd(updates: seq<string>, word: seq<string>, rest: string)
    requires Head(rest) != '"' && word == ["excluded"]
    ensures Adds(Text.Join(Assignments(updates), ", "), Repeated(word, |updates|), rest)
  {
    var items := Assignments(updates);
    forall i | 0 <= i < |items| ensures AlwaysAdds(items[i], word) {
      AssignmentAlwaysAdds(updates[i]);
    }
    ListAdds(items, word, ", ", rest);
  }

  lemma SetAdds(tail: string, more: seq<string>, rest: string)
    requires Adds(tail, more, rest)
    ensures Adds("SET" + (" " + tail), ["set"] + more, rest)
  {
    Keywords();
    KeywordAdds("SET", "set", " ", tail, more, rest);
  }

  lemma DoUpdateAdds(tail: string, more: seq<string>, rest: string)
    requires Adds(tail, more, rest)
    ensures Adds("DO" + (" " + ("UPDATE" + (" " + tail))), ["do"] + (["update"] + more), rest)
  {
    Keywords();
    TwoKeywordsAdd("DO", "do", "UPDATE", "update", " ", tail, more, rest);
  }

  lemma OnAdds(tail: string, more: seq<string>, rest: string)
    requires Adds(tail, more, rest)
    ensures Adds("ON" + (" " + ("CONFLICT" + (" (" + tail))), ["on"] + (["conflict"] + more), rest)
  {
    Keywords();
    KeywordAdds("CONFLICT", "conflict", " (", tail, more, rest);
    KeywordAdds("ON", "on", " ", "CONFLICT" + (" (" + tail), ["conflict"] + more, rest);
  }

  lemma ActionAdds(tail: string, excluded: seq<string>, rest: string)
    requires Adds(tail, excluded, rest)
    ensures Adds("DO" + (" " + ("UPDATE" + (" " + ("SET" + (" " + tail))))),
                 ["do"] + (["update"] + (["set"] + excluded)), rest)
  {
    SetAdds(tail, excluded, rest);
    DoUpdateAdds("SET" + (" " + tail), ["set"] + excluded, rest);
  }

  lemma ClauseAdds(conflicts: seq<string>, action: string, words: seq<string>, rest: string)
    requires Adds(action, words, rest)
    ensures Adds("ON" + (" " + ("CONFLICT" + (" (" + (Text.Join(QuoteAll(conflicts), ", ") + (") " + action))))),
                 ["on"] + (["conflict"] + words), rest)
  {
    NamesAdd(conflicts, ", ", ") ", action, words, rest);
    OnAdds(Text.Join(QuoteAll(conflicts), ", ") + (") " + action), words, rest);
  }

  lemma OnConflictAdds(conflicts: seq<string>, updates: seq<string>, rest: string)
    requires Head(rest) != '"'
    ensures Adds(OnConflict(conflicts, updates), ConflictWords(|updates|), rest)
  {
    var tail := Text.Join(Assignments(updates), ", ");
    var excluded := Repeated(["excluded"], |updates|);
    UpdatesAdd(updates, ["excluded"], rest);
    ActionAdds(tail, excluded, rest);
    var action := "DO" + (" " + ("UPDATE" + (" " + ("SET" + (" " + tail)))));
    var words := ["do"] + (["update"] + (["set"] + excluded));
    ClauseAdds(conflicts, action, words, rest);
    assert ["on"] + (["conflict"] + words) == ConflictWords(|updates|);
  }

  /** Whatever the names are, the words of an append statement are INSERT, INTO and the words of the extract. */
  lemma AppendKeepsTheExtract(table: seq<string>, columns: seq<string>, extract: string)
    ensures Tokens(Append(table, columns) + ("\n" + extract)) == ["insert", "into"] + Tokens(extract)
    ensures End(Plain, Append(table, columns) + ("\n" + extract)) == End(Plain, extract)
  {
    PunctuationAddsNothing("\n", extract);
    AppendAdds(table, columns, "\n" + extract);
  }

  /** The statement lexes apart from every clause on the next line exactly when the extract closes its quotes. */
  lemma ClauseIsReadIff(table: seq<string>, columns: seq<string>, extract: string)
    ensures var head := Append(table, columns) + ("\n" + extract);
            EndsOutside(extract) <==>
            forall clause :: Tokens(head + "\n" + clause) == ["insert", "into"] + Tokens(extract) + Tokens(clause)
  {
    AppendKeepsTheExtract(table, columns, extract);
    LexesApartIff(Append(table, columns) + ("\n" + extract));
  }

  lemma UpsertWords(table: seq<string>, columns: seq<string>, extract: string, conflicts: seq<string>,
                    updates: seq<string>)
    requires EndsOutside(extract)
    ensures Tokens(Append(table, columns) + ("\n" + extract) + "\n" + OnConflict(conflicts, updates))
         == ["insert", "into"] + Tokens(extract) + ConflictWords(|updates|)
  {
    ClauseIsReadIff(table, columns, extract);
    var clause := OnConflict(conflicts, updates);
    OnConflictAdds(conflicts, updates, "");
    assert clause + "" == clause && Tokens("") == [];
  }

  // ---------------------------------------------------------------------------------------------
  // The builder

  function WriteMode(spec: PipelineSpec): (mode: string) {
    var mode := TrimSpace(Lower(spec.writeMode));
    if mode == "" then "append" else mode
  }

  /** The columns an upsert overwrites: the named ones, or every target column outside the conflict list. */
  function Updates(spec: PipelineSpec): (columns: seq<string>) {
    if WriteMode(spec) == "upsert" && spec.updateColumns == [] then
      NonConflict(spec.targetColumns, spec.conflictColumns)
    else
      spec.updateColumns
  }

  predicate HasFault(foreign: string -> bool, spec: PipelineSpec, fault: Fault) {
    match fault
    case BadWriteMode => WriteMode(spec) != "append" && WriteMode(spec) != "upsert"
    case NoConflictColumns => WriteMode(spec) == "upsert" && spec.conflictColumns == []
    case BadTable => !IsIdentifier(foreign, spec.targetTable)
    case BadTargetColumn => !AllColumns(foreign, spec.targetColumns)
    case BadConflictColumn => !AllColumns(foreign, spec.conflictColumns)
    case BadUpdateColumn => !AllColumns(foreign, Updates(spec))
    case NoUpdateColumns => WriteMode(spec) == "upsert" && Updates(spec) == []
    case BadExtract => !IsQuery(Trimmed(spec.extractSql))
  }

  function Statement(spec: PipelineSpec): (s: string) {
    var insert :=
      Append(Text.Split(spec.targetTable, '.'), spec.targetColumns) + ("\n" + Trimmed(spec.extractSql));
    if WriteMode(spec) == "upsert" then insert + "\n" + OnConflict(spec.conflictColumns, Updates(spec)) else insert
  }

  lemma InsertText(table: string, columns: string)
    ensures "INSERT INTO " + table + " (" + columns + ")"
         == "INSERT" + (" " + ("INTO" + (" " + (table + (" (" + (columns + ")"))))))
  {
    assert "INSERT INTO " == "INSERT" + (" " + ("INTO" + " "));
  }

  lemma ClauseText(conflicts: string, updates: string)
    ensures "ON CONFLICT (" + conflicts + ") DO UPDATE SET " + updates
         == "ON" + (" " + ("CONFLICT" + (" (" + (conflicts + (") " + ("DO" + (" " + ("UPDATE" + (" "
          + ("SET" + (" " + updates)))))))))))
  {
    assert "ON CONFLICT (" == "ON" + (" " + ("CONFLICT" + " ("));
    var action := ") DO UPDATE SET ";
    assert action == ") " + ("DO" + (" " + ("UPDATE" + (" " + ("SET" + " ")))));
    Regroup("ON", " ", "CONFLICT", " (", conflicts + (action + updates));
    Regroup(") ", "DO", " ", "UPDATE", " " + ("SET" + (" " + updates)));
    assert action + updates == (") " + ("DO" + (" " + "UPDATE"))) + (" " + ("SET" + (" " + updates)));
  }

  lemma Regroup(a: string, b: string, c: string, d: string, rest: string)
    ensures (a + (b + (c + d))) + rest == a + (b + (c + (d + rest)))
  {
  }

  method AssignmentList(ghost updates: seq<string>, quoted: seq<string>) returns (assignments: seq<string>)
    requires quoted == QuoteAll(updates)
    ensures assignments == Assignments(updates)
  {
    assignments := [];
    for i := 0 to |quoted|
      invariant |assignments| == i && forall j | 0 <= j < i :: assignments[j] == Assignment(updates[j])
    {
      var column := quoted[i];
      assert column + " = EXCLUDED." + column == Assignment(updates[i]) by {
        assert " = EXCLUDED." == " = " + ("EXCLUDED" + ".");
      }
      assignments := assignments + [column + " = EXCLUDED." + column];
    }
  }

  /** The names of a specification, parsed and quoted. */
  datatype Names = Names(
    table: seq<string>,
    columns: seq<string>,
    conflicts: seq<string>,
    updates: seq<string>)

  function NamesOf(spec: PipelineSpec): (names: Names) {
    Names(Text.Split(spec.targetTable, '.'), QuoteAll(spec.targetColumns), QuoteAll(spec.conflictColumns),
          QuoteAll(Updates(spec)))
  }

  /** The checks before the extract's, in the source's order. */
  method ResolveNames(foreign: string -> bool, spec: PipelineSpec, writeMode: string)
    returns (r: Result<Names, Fault>)
    requires writeMode == WriteMode(spec)
    ensures r.Err? ==> !r.error.BadExtract? && HasFault(foreign, spec, r.error)
    ensures r.Ok? ==> r.value == NamesOf(spec) && forall fault :: HasFault(foreign, spec, fault) ==> fault.BadExtract?
  {
    if writeMode != "append" && writeMode != "upsert" {
      return Err(BadWriteMode);
    }
    if writeMode == "upsert" && |spec.conflictColumns| == 0 {
      return Err(NoConflictColumns);
    }
    var targetTable := ParseIdentifier(foreign, spec.targetTable);
    if targetTable.None? {
      return Err(BadTable);
    }
    var targetColumns := SanitizeColumns(foreign, spec.targetColumns);
    if targetColumns.None? {
      return Err(BadTargetColumn);
    }
    var conflictColumns := SanitizeColumns(foreign, spec.conflictColumns);
    if conflictColumns.None? {
      return Err(BadConflictColumn);
    }
    var updateColumns := spec.updateColumns;
    if writeMode == "upsert" && |updateColumns| == 0 {
      updateColumns := NonConflictColumns(spec.targetColumns, spec.conflictColumns);
    }
    var sanitizedUpdates := SanitizeColumns(foreign, updateColumns);
    if sanitizedUpdates.None? {
      return Err(BadUpdateColumn);
    }
    if writeMode == "upsert" && |sanitizedUpdates.value| == 0 {
      return Err(NoUpdateColumns);
    }
    return Ok(Names(targetTable.value, targetColumns.value, conflictColumns.value, sanitizedUpdates.value));
  }

  method Assemble(ghost spec: PipelineSpec, upsert: bool, names: Names, extract: string) returns (statement: string)
    requires names == NamesOf(spec) && upsert == (WriteMode(spec) == "upsert") && extract == Trimmed(spec.extractSql)
    ensures statement == Statement(spec)
  {
    var table, columns := Sanitize(names.table), Text.Join(names.columns, ", ");
    InsertText(table, columns);
    statement := "INSERT INTO " + table + " (" + columns + ")" + ("\n" + extract);
    if upsert {
      var assignments := AssignmentList(Updates(spec), names.updates);
      var conflicts, updates := Text.Join(names.conflicts, ", "), Text.Join(assignments, ", ");
      ClauseText(conflicts, updates);
      statement := statement + "\n" + ("ON CONFLICT (" + conflicts + ") DO UPDATE SET " + updates);
    }
  }

  /** A statement is built exactly for a specification without faults, and a reported fault is really there. */
  method BuildInsertSql(foreign: string -> bool, spec: PipelineSpec) returns (r: Result<string, Fault>)
    ensures r.Ok? <==> forall fault :: !HasFault(foreign, spec, fault)
    ensures r.Err? ==> HasFault(foreign, spec, r.error)
    ensures r.Ok? ==> r.value == Statement(spec)
  {
    var writeMode := TrimSpace(Lower(spec.writeMode));
    if writeMode == "" {
      writeMode := "append";
    }
    var names := ResolveNames(foreign, spec, writeMode);
    if names.Err? {
      return Err(names.error);
    }
    var extract := NormalizeExtractSql(spec.extractSql);
    if extract.Err? {
      assert HasFault(foreign, spec, BadExtract);
      return Err(BadExtract);
    }
    var statement := Assemble(spec, writeMode == "upsert", names.value, extract.value);
    return Ok(statement);
  }

  /**
   * What is built reads as intended: an append is INSERT INTO and then exactly the words of an extract that is a
   * query, none of them forbidden; an upsert adds its conflict clause when the extract closes its quotes.
   */
  lemma BuiltStatementReads(foreign: string -> bool, spec: PipelineSpec)
    requires forall fault :: !HasFault(foreign, spec, fault)
    ensures IsQuery(Trimmed(spec.extractSql))
    ensures WriteMode(spec) == "append" ==>
              Tokens(Statement(spec)) == ["insert", "into"] + Tokens(Trimmed(spec.extractSql))
    ensures WriteMode(spec) == "upsert" && EndsOutside(Trimmed(spec.extractSql)) ==>
              Tokens(Statement(spec))
              == ["insert", "into"] + Tokens(Trimmed(spec.extractSql)) + ConflictWords(|Updates(spec)|)
  {
    var table, extract := Text.Split(spec.targetTable, '.'), Trimmed(spec.extractSql);
    assert !HasFault(foreign, spec, BadExtract);
    AppendKeepsTheExtract(table, spec.targetColumns, extract);
    if EndsOutside(extract) {
      UpsertWords(table, spec.targetColumns, extract, spec.conflictColumns, Updates(spec));
    }
  }
}
