/** The compiler from alert and console conditions to SQL text, and the proof that the text,
    read by the rules of SqlText, means what the conditions say. */
module FilterCompiler {
  import opened Values
  import opened SqlText

  datatype Operator =
    | Equal | NotEqual | LessThan | GreaterThan | LessThanOrEqual | GreaterThanOrEqual | IsNull | IsNotNull
    | ILike | Contains | BeginsWith | EndsWith | DoesNotContain | DoesNotBeginWith | DoesNotEndWith

  function OperatorText(op: Operator): string {
    match op
    case Equal => "="
    case NotEqual => "!="
    case LessThan => "<"
    case GreaterThan => ">"
    case LessThanOrEqual => "<="
    case GreaterThanOrEqual => ">="
    case IsNull => "is null"
    case IsNotNull => "is not null"
    case ILike => "ilike"
    case Contains => "contains"
    case BeginsWith => "begins with"
    case EndsWith => "ends with"
    case DoesNotContain => "does not contain"
    case DoesNotBeginWith => "does not begin with"
    case DoesNotEndWith => "does not end with"
  }

  datatype Condition = Condition(column: string, operator: Operator, value: Option<string>, columnType: Option<string>)

  datatype LogicalOperator = And | Or

  datatype Result<T> = Ok(value: T) | Err(message: string)

  // ----------------------------------------------------------------------- escaping

  /** `str::replace` of one character. */
  function Replace(s: string, c: char, with: string): string {
    if s == "" then "" else (if s[0] == c then with else [s[0]]) + Replace(s[1..], c, with)
  }

  function EscapeLike(value: string): string {
    Replace(Replace(Replace(Replace(value, '\\', "\\\\"), '\'', "''"), '%', "\\%"), '_', "\\_")
  }

  function EscapedChar(c: char): string {
    if c == '\\' then "\\\\" else if c == '\'' then "''"
    else if c == '%' then "\\%" else if c == '_' then "\\_" else [c]
  }

  function EscapedChars(v: string): string {
    if v == "" then "" else EscapedChar(v[0]) + EscapedChars(v[1..])
  }

  lemma Assoc<T>(a: seq<T>, b: seq<T>, c: seq<T>)
    ensures a + (b + c) == a + b + c
  { }

  lemma {:induction false} ReplaceAppend(s: string, t: string, c: char, with: string)
    ensures Replace(s + t, c, with) == Replace(s, c, with) + Replace(t, c, with)
  {
    if s == "" {
      assert s + t == t;
    } else {
      var rest := s[1..];
      ReplaceAppend(rest, t, c, with);
      assert s == [s[0]] + rest && s + t == [s[0]] + (rest + t);
      hide Replace;
      Assoc(if s[0] == c then with else [s[0]], Replace(rest, c, with), Replace(t, c, with));
    }
  }

  lemma ReplaceSmall(a: char, b: char, c: char, with: string)
    ensures Replace([a], c, with) == if a == c then with else [a]
    ensures Replace([a, b], c, with) == (if a == c then with else [a]) + if b == c then with else [b]
  {
    assert [a, b][1..] == [b] && [b][1..] == "" && [a][1..] == "";
  }

  lemma EscapeOne(c: char)
    ensures EscapeLike([c]) == EscapedChar(c)
  {
    ReplaceSmall(c, c, '\\', "\\\\");
    ReplaceSmall(c, c, '\'', "''");
    ReplaceSmall(c, c, '%', "\\%");
    ReplaceSmall(c, c, '_', "\\_");
    if c == '%' { ReplaceSmall('\\', '%', '_', "\\_"); }
  }

  /** The four passes, each over the output of the last, escape every character once. */
  lemma {:induction false} EscapeIsPerChar(v: string)
    ensures EscapeLike(v) == EscapedChars(v)
  {
    if v != "" {
      EscapeIsPerChar(v[1..]);
      EscapeOne(v[0]);
      assert v == [v[0]] + v[1..];
      EscapeAppend([v[0]], v[1..]);
    }
  }

  lemma EscapeAppend(s: string, t: string)
    ensures EscapeLike(s + t) == EscapeLike(s) + EscapeLike(t)
  {
    hide Replace;
    ReplaceAppend(s, t, '\\', "\\\\");
    var s1, t1 := Replace(s, '\\', "\\\\"), Replace(t, '\\', "\\\\");
    ReplaceAppend(s1, t1, '\'', "''");
    var s2, t2 := Replace(s1, '\'', "''"), Replace(t1, '\'', "''");
    ReplaceAppend(s2, t2, '%', "\\%");
    ReplaceAppend(Replace(s2, '%', "\\%"), Replace(t2, '%', "\\%"), '_', "\\_");
  }

  /** What the literal holds: the value with its wildcards and backslashes escaped. */
  function PatternText(v: string): string {
    if v == "" then ""
    else (if v[0] == '\\' || v[0] == '%' || v[0] == '_' then ['\\', v[0]] else [v[0]]) + PatternText(v[1..])
  }

  lemma {:induction false} DoubledAppend(s: string, t: string)
    ensures Doubled(s + t, '\'') == Doubled(s, '\'') + Doubled(t, '\'')
  {
    if s == "" {
      assert s + t == t;
    } else {
      DoubledAppend(s[1..], t);
      assert (s + t)[1..] == s[1..] + t;
    }
  }

  lemma {:induction false} EscapedIsDoubled(v: string)
    ensures EscapedChars(v) == Doubled(PatternText(v), '\'')
  {
    if v != "" {
      EscapedIsDoubled(v[1..]);
      var head := if v[0] == '\\' || v[0] == '%' || v[0] == '_' then ['\\', v[0]] else [v[0]];
      DoubledAppend(head, PatternText(v[1..]));
      assert head[1..] == if |head| == 2 then [v[0]] else "";
      assert [v[0]][1..] == "";
    }
  }

  lemma {:induction false} ReplaceIsDoubled(v: string)
    ensures Replace(v, '\'', "''") == Doubled(v, '\'')
  {
    if v != "" { ReplaceIsDoubled(v[1..]); }
  }

  predicate Special(c: char) {
    c == '\\' || c == '%' || c == '_'
  }

  lemma BeforeBefore(es: seq<Element>, fs: seq<Element>, r: Option<seq<Element>>)
    ensures Before(es, Before(fs, r)) == Before(es + fs, r)
    ensures Before([], r) == r
  {
    if r.Some? {
      Assoc(es, fs, r.value);
      assert [] + r.value == r.value;
    }
  }

  lemma ExactFirst(v: string)
    requires v != ""
    ensures Exact(v) == [Exactly(v[0])] + Exact(v[1..])
  { }

  /** Read as a pattern, the escaped value stands for exactly its own characters. */
  lemma {:induction false} PatternReads(v: string, tail: string)
    ensures ReadPattern(PatternText(v) + tail, '\\') == Before(Exact(v), ReadPattern(tail, '\\'))
  {
    var r := ReadPattern(tail, '\\');
    if v == "" {
      assert PatternText(v) + tail == tail;
      BeforeBefore([], [], r);
      assert Exact(v) == [];
    } else {
      var rest := PatternText(v[1..]);
      PatternReads(v[1..], tail);
      var head := if Special(v[0]) then ['\\', v[0]] else [v[0]];
      assert PatternText(v) == head + rest;
      Assoc(head, rest, tail);
      ExactFirst(v);
      BeforeBefore([Exactly(v[0])], Exact(v[1..]), r);
      hide ReadPattern; hide PatternText; hide Exact;
    }
  }

  /** A value between optional wildcards. */
  function Sought(before: bool, v: string, after: bool): seq<Element> {
    (if before then [Any] else []) + Exact(v) + if after then [Any] else []
  }

  function Wild(here: bool): string {
    if here then "%" else ""
  }

  lemma SoughtReads(before: bool, v: string, after: bool)
    ensures ReadPattern(Wild(before) + PatternText(v) + Wild(after), '\\') == Some(Sought(before, v, after))
  {
    var tail := Wild(after);
    WildReads(after);
    PatternReads(v, tail);
    var p := Wild(before) + PatternText(v) + tail;
    if before {
      assert p[1..] == PatternText(v) + tail;
      assert Sought(before, v, after) == [Any] + (Exact(v) + if after then [Any] else []);
    } else {
      assert p == PatternText(v) + tail;
      assert Sought(before, v, after) == Exact(v) + if after then [Any] else [];
    }
  }

  lemma WildReads(here: bool)
    ensures ReadPattern(Wild(here), '\\') == Some(if here then [Any] else [])
  {
    assert ReadPattern("", '\\') == Some([]);
    assert "%"[1..] == "" && [Any] + [] == [Any];
  }

  lemma WildDoubled(here: bool)
    ensures Doubled(Wild(here), '\'') == Wild(here)
  {
    assert "%"[1..] == "" && Doubled("", '\'') == "";
  }

  /** A literal between its quotes, as the compiler writes it. */
  lemma LikeLiteral(before: bool, v: string, after: bool)
    ensures "'" + Wild(before) + EscapeLike(v) + Wild(after) + "'" ==
            Written(Quoted(Wild(before) + PatternText(v) + Wild(after)))
  {
    EscapeIsPerChar(v);
    EscapedIsDoubled(v);
    WildDoubled(before);
    WildDoubled(after);
    DoubledAppend(Wild(before) + PatternText(v), Wild(after));
    DoubledAppend(Wild(before), PatternText(v));
    hide Doubled; hide EscapeLike; hide PatternText; hide Wild;
    assert "'" + Wild(before) + EscapeLike(v) + Wild(after) == "'" + (Wild(before) + EscapeLike(v) + Wild(after));
  }

  // --------------------------------------------------------------------- compilation

  function Lower(s: string): string {
    seq(|s|, i requires 0 <= i < |s| => if 'A' <= s[i] <= 'Z' then s[i] - 'A' + 'a' else s[i])
  }

  /** What `parse::<f64>` accepts: a numeral, or a name of an infinity or NaN in any case. */
  predicate FloatText(v: string) {
    Numeral(v).Some? || Lower(Bare(v)) in {"inf", "infinity", "nan"}
  }

  /** `shown(v)` is how the `f64` that `v` parses to is displayed, if it parses: as a numeral,
      rounded to a `f64` as the case may be, or by one of the three words for what is not finite. */
  ghost predicate Displays(shown: string -> Option<string>) {
    && (forall v :: shown(v).Some? <==> FloatText(v))
    && forall v :: shown(v).Some? ==> Numeral(shown(v).value).Some? || IsNotFinite(shown(v).value)
  }

  lemma DisplaysAt(v: string, shown: string -> Option<string>)
    requires Displays(shown)
    ensures shown(v).Some? <==> FloatText(v)
    ensures shown(v).Some? ==> Numeral(shown(v).value).Some? || IsNotFinite(shown(v).value)
  { }

  predicate IsNotFinite(text: string) {
    text == "inf" || text == "-inf" || text == "NaN"
  }

  predicate IsBool(v: string) {
    v == "true" || v == "false"
  }

  predicate BoolType(t: Option<string>) {
    t == Some("bool") || t == Some("boolean")
  }

  predicate NumberType(t: Option<string>) {
    t == Some("int") || t == Some("float") || t == Some("number")
  }

  predicate ListType(t: Option<string>) {
    t.Some? && |t.value| >= 4 && t.value[..4] == "list"
  }

  function Formatted(value: string, columnType: Option<string>, shown: string -> Option<string>): Result<string> {
    if BoolType(columnType) then
      if IsBool(value) then Ok(value) else Err("Invalid boolean literal: " + value)
    else if NumberType(columnType) then
      if shown(value).Some? then Ok(shown(value).value) else Err("Invalid numeric literal: " + value)
    else if columnType.Some? then Ok("'" + Replace(value, '\'', "''") + "'")
    else if shown(value).Some? then Ok(shown(value).value)
    else if IsBool(value) then Ok(value)
    else Ok("'" + Replace(value, '\'', "''") + "'")
  }

  function ScalarConditionExpr(column: string, operator: Operator, value: string, columnType: Option<string>,
                               shown: string -> Option<string>): Result<string>
  {
    var named := "\"" + column + "\" ";
    match operator
    case Contains => Ok(named + "LIKE '%" + EscapeLike(value) + "%' ESCAPE '\\'")
    case DoesNotContain => Ok(named + "NOT LIKE '%" + EscapeLike(value) + "%' ESCAPE '\\'")
    case ILike => Ok(named + "ILIKE '%" + EscapeLike(value) + "%' ESCAPE '\\'")
    case BeginsWith => Ok(named + "LIKE '" + EscapeLike(value) + "%' ESCAPE '\\'")
    case DoesNotBeginWith => Ok(named + "NOT LIKE '" + EscapeLike(value) + "%' ESCAPE '\\'")
    case EndsWith => Ok(named + "LIKE '%" + EscapeLike(value) + "' ESCAPE '\\'")
    case DoesNotEndWith => Ok(named + "NOT LIKE '%" + EscapeLike(value) + "' ESCAPE '\\'")
    case _ =>
      var formatted := Formatted(value, columnType, shown);
      if formatted.Err? then formatted else Ok(named + OperatorText(operator) + " " + formatted.value)
  }

  /** The characters `str::trim` removes. */
  predicate WhiteSpace(c: char) {
    var n := c as int;
    9 <= n <= 13 || n == 32 || n == 0x85 || n == 0xA0 || n == 0x1680 || 0x2000 <= n <= 0x200A
    || n == 0x2028 || n == 0x2029 || n == 0x202F || n == 0x205F || n == 0x3000
  }

  function Trimmed(s: string): string
    decreases |s|
  {
    if s != "" && WhiteSpace(s[0]) then Trimmed(s[1..])
    else if s != "" && WhiteSpace(s[|s| - 1]) then Trimmed(s[..|s| - 1])
    else s
  }

  function InnerValue(value: string): string {
    var t := Trimmed(value);
    if |t| >= 2 && t[0] == '[' && t[|t| - 1] == ']' then t[1..|t| - 1] else value
  }

  function ListConditionExpr(column: string, operator: Operator, value: string): Result<string> {
    var inner := InnerValue(value);
    match operator
    case Contains => Ok("array_has_all(\"" + column + "\", ARRAY[" + inner + "])")
    case DoesNotContain => Ok("NOT array_has_all(\"" + column + "\", ARRAY[" + inner + "])")
    case Equal => Ok("\"" + column + "\" = ARRAY[" + inner + "]")
    case NotEqual => Ok("\"" + column + "\" != ARRAY[" + inner + "]")
    case _ => Err("Operator '" + OperatorText(operator) + "' is not supported for list type columns")
  }

  function ValueOf(c: Condition): string {
    if c.value.Some? then c.value.value else ""
  }

  predicate NullOperator(op: Operator) {
    op.IsNull? || op.IsNotNull?
  }

  function ConditionToExpr(c: Condition, shown: string -> Option<string>): Result<string> {
    if NullOperator(c.operator) then
      if ValueOf(c) != "" then Err("value must be null when operator is either `is null` or `is not null`")
      else Ok("\"" + c.column + "\" " + OperatorText(c.operator))
    else if ListType(c.columnType) then ListConditionExpr(c.column, c.operator, ValueOf(c))
    else ScalarConditionExpr(c.column, c.operator, ValueOf(c), c.columnType, shown)
  }

  function Joined(texts: seq<string>, separator: string): string {
    if texts == [] then ""
    else if |texts| == 1 then texts[0]
    else texts[0] + separator + Joined(texts[1..], separator)
  }

  method GetFilterString(operator: Option<LogicalOperator>, conditions: seq<Condition>, shown: string -> Option<string>)
    returns (r: Result<string>)
    requires Displays(shown)
    ensures r.Ok? <==> operator == Some(And) && forall c | c in conditions :: Valid(c)
    ensures r.Ok? ==> exists texts | IsTextsOf(texts, conditions, shown) :: r.value == Joined(texts, " AND ")
    ensures r.Err? && operator == Some(And) ==> exists i: nat | FirstInvalid(conditions, i, shown) ::
              ConditionToExpr(conditions[i], shown) == Err(r.message)
  {
    if operator != Some(And) {
      return Err(if operator == Some(Or) then "Invalid option 'or', only 'and' is supported"
                 else "Invalid option 'null', only 'and' is supported");
    }
    var texts: seq<string> := [];
    for i := 0 to |conditions|
      invariant IsTextsOf(texts, conditions[..i], shown)
      invariant forall c | c in conditions[..i] :: Valid(c)
    {
      var c := conditions[i];
      assert c in conditions && conditions[..i + 1] == conditions[..i] + [c];
      var text := ConditionToExpr(c, shown);
      ValidExact(c, shown);
      if text.Err? {
        assert FirstInvalid(conditions, i, shown) by {
          forall j | 0 <= j < i ensures Valid(conditions[j]) { assert conditions[j] in conditions[..i]; }
        }
        return text;
      }
      texts := texts + [text.value];
    }
    assert conditions[..|conditions|] == conditions;
    r := Ok(Joined(texts, " AND "));
  }

  predicate FirstInvalid(conditions: seq<Condition>, i: nat, shown: string -> Option<string>) {
    i < |conditions| && !Valid(conditions[i]) && forall j | 0 <= j < i :: Valid(conditions[j])
  }

  ghost predicate IsTextsOf(texts: seq<string>, conditions: seq<Condition>, shown: string -> Option<string>) {
    && |texts| == |conditions|
    && forall i | 0 <= i < |texts| :: ConditionToExpr(conditions[i], shown) == Ok(texts[i])
  }

  // --------------------------------------------------------------- what is accepted

  predicate LikeOperator(op: Operator) {
    op.Contains? || op.DoesNotContain? || op.ILike? || op.BeginsWith? || op.DoesNotBeginWith?
    || op.EndsWith? || op.DoesNotEndWith?
  }

  /** Null tests take no value, lists four operators, and literals fit their column's type. */
  predicate Valid(c: Condition) {
    var v := ValueOf(c);
    if NullOperator(c.operator) then v == ""
    else if ListType(c.columnType) then
      c.operator in {Contains, DoesNotContain, Equal, NotEqual}
    else
      || LikeOperator(c.operator)
      || ((BoolType(c.columnType) ==> IsBool(v)) && (NumberType(c.columnType) ==> FloatText(v)))
  }

  lemma ValidExact(c: Condition, shown: string -> Option<string>)
    requires Displays(shown)
    ensures ConditionToExpr(c, shown).Ok? <==> Valid(c)
  {
    DisplaysAt(ValueOf(c), shown);
    hide Displays; hide FloatText;
    if !NullOperator(c.operator) && !ListType(c.columnType) { ScalarValid(c, shown); }
    hide ScalarConditionExpr;
  }

  lemma ScalarValid(c: Condition, shown: string -> Option<string>)
    requires shown(ValueOf(c)).Some? <==> FloatText(ValueOf(c))
    requires !NullOperator(c.operator) && !ListType(c.columnType)
    ensures ScalarConditionExpr(c.column, c.operator, ValueOf(c), c.columnType, shown).Ok? <==> Valid(c)
  {
    hide FloatText; hide EscapeLike; hide Replace; hide ListType;
  }

  predicate Blank(s: string) {
    forall i | 0 <= i < |s| :: WhiteSpace(s[i])
  }

  /** The value is a bracketed text between blanks. */
  predicate Bracketed(v: string, inner: string, before: string, after: string) {
    Blank(before) && Blank(after) && v == before + "[" + inner + "]" + after
  }

  /** What stands in an array is what the brackets hold, if the value has them, else the value. */
  lemma InnerExact(v: string)
    ensures (forall inner, before, after | Bracketed(v, inner, before, after) :: InnerValue(v) == inner)
    ensures (forall inner, before, after :: !Bracketed(v, inner, before, after)) ==> InnerValue(v) == v
  {
    forall inner, before, after | Bracketed(v, inner, before, after) ensures InnerValue(v) == inner {
      var t := "[" + inner + "]";
      TrimmedPadded(t, before, after);
      assert before + t + after == v && t[1..|t| - 1] == inner;
    }
    var t := Trimmed(v);
    if |t| >= 2 && t[0] == '[' && t[|t| - 1] == ']' {
      var before, after := TrimmedParts(v);
      assert t == "[" + t[1..|t| - 1] + "]";
      assert Bracketed(v, t[1..|t| - 1], before, after);
    }
    hide Trimmed;
  }

  lemma {:induction false} TrimmedPadded(s: string, before: string, after: string)
    requires s != "" && !WhiteSpace(s[0]) && !WhiteSpace(s[|s| - 1])
    requires Blank(before) && Blank(after)
    ensures Trimmed(before + s + after) == s
    decreases |before| + |after|
  {
    var text := before + s + after;
    hide WhiteSpace;
    if before != "" {
      assert text[1..] == before[1..] + s + after && text[0] == before[0];
      TrimmedPadded(s, before[1..], after);
    } else if after != "" {
      var n := |after| - 1;
      assert text[..|text| - 1] == before + s + after[..n] && text[|text| - 1] == after[n] && text[0] == s[0];
      TrimmedPadded(s, before, after[..n]);
    } else {
      assert text == s;
    }
  }

  lemma {:induction false} TrimmedParts(v: string) returns (before: string, after: string)
    ensures Blank(before) && Blank(after) && v == before + Trimmed(v) + after
    decreases |v|
  {
    before, after := "", "";
    hide WhiteSpace;
    if v != "" && WhiteSpace(v[0]) {
      before, after := TrimmedParts(v[1..]);
      before := [v[0]] + before;
      assert v == [v[0]] + v[1..];
    } else if v != "" && WhiteSpace(v[|v| - 1]) {
      var n := |v| - 1;
      before, after := TrimmedParts(v[..n]);
      after := after + [v[n]];
      assert v == v[..n] + [v[n]];
    }
  }

  // ------------------------------------------------------------------ what is written

  /** The literal a value stands for, read from the value itself. */
  function OperandOf(value: string, columnType: Option<string>): SqlLiteral {
    if BoolType(columnType) then Flag(value == "true")
    else if columnType.Some? && !NumberType(columnType) then TextOperand(value)
    else if Numeral(value).Some? then Number(Numeral(value).value)
    else if FloatText(value) then NotFinite
    else if IsBool(value) then Flag(value == "true")
    else TextOperand(value)
  }

  /** The predicate a condition stands for. */
  function Expected(c: Condition): Predicate
    requires Valid(c) && !ListType(c.columnType)
  {
    var v := ValueOf(c);
    match c.operator
    case IsNull => NullTest(c.column, false)
    case IsNotNull => NullTest(c.column, true)
    case Contains => Like(c.column, Sought(true, v, true), false, false)
    case DoesNotContain => Like(c.column, Sought(true, v, true), true, false)
    case ILike => Like(c.column, Sought(true, v, true), false, true)
    case BeginsWith => Like(c.column, Sought(false, v, true), false, false)
    case DoesNotBeginWith => Like(c.column, Sought(false, v, true), true, false)
    case EndsWith => Like(c.column, Sought(true, v, false), false, false)
    case DoesNotEndWith => Like(c.column, Sought(true, v, false), true, false)
    case Equal => Compare(c.column, EqualTo, OperandOf(v, c.columnType))
    case NotEqual => Compare(c.column, Unequal, OperandOf(v, c.columnType))
    case LessThan => Compare(c.column, Less, OperandOf(v, c.columnType))
    case GreaterThan => Compare(c.column, Greater, OperandOf(v, c.columnType))
    case LessThanOrEqual => Compare(c.column, LessOrEqual, OperandOf(v, c.columnType))
    case GreaterThanOrEqual => Compare(c.column, GreaterOrEqual, OperandOf(v, c.columnType))
  }

  /** The literal of a comparison is no finite number, or one that its `f64` displays with
      another value. */
  predicate NumeralChanged(c: Condition, shown: string -> Option<string>) {
    var operand := OperandOf(ValueOf(c), c.columnType);
    && !NullOperator(c.operator) && !LikeOperator(c.operator)
    && (operand.NotFinite? || (operand.Number? && ShownValue(ValueOf(c), shown) != Some(operand.value)))
  }

  function ShownValue(value: string, shown: string -> Option<string>): Option<real> {
    if shown(value).None? then None else Numeral(shown(value).value)
  }

  function LiteralToken(value: string, columnType: Option<string>, shown: string -> Option<string>): Token {
    if BoolType(columnType) then Word(value)
    else if columnType.Some? && !NumberType(columnType) then Quoted(value)
    else if shown(value).Some? then Word(shown(value).value)
    else if IsBool(value) then Word(value)
    else Quoted(value)
  }

  function LikeTokens(column: string, before: bool, v: string, after: bool, negated: bool, caseless: bool): seq<Token> {
    [Ident(column)] + (if negated then [Word("NOT")] else []) +
    [Word(if caseless then "ILIKE" else "LIKE"), Quoted(Wild(before) + PatternText(v) + Wild(after)), Word("ESCAPE"), Quoted("\\")]
  }

  function TokensOf(c: Condition, shown: string -> Option<string>): (ts: seq<Token>)
    requires Valid(c) && !ListType(c.columnType)
    ensures ts != [] && ts[0] == Ident(c.column)
  {
    var v := ValueOf(c);
    match c.operator
    case IsNull => [Ident(c.column), Word("is"), Word("null")]
    case IsNotNull => [Ident(c.column), Word("is"), Word("not"), Word("null")]
    case Contains => LikeTokens(c.column, true, v, true, false, false)
    case DoesNotContain => LikeTokens(c.column, true, v, true, true, false)
    case ILike => LikeTokens(c.column, true, v, true, false, true)
    case BeginsWith => LikeTokens(c.column, false, v, true, false, false)
    case DoesNotBeginWith => LikeTokens(c.column, false, v, true, true, false)
    case EndsWith => LikeTokens(c.column, true, v, false, false, false)
    case DoesNotEndWith => LikeTokens(c.column, true, v, false, true, false)
    case _ => [Ident(c.column), Word(OperatorText(c.operator)), LiteralToken(v, c.columnType, shown)]
  }

  lemma SpacedThree(a: Token, b: Token, c: Token)
    ensures Spaced([a, b, c]) == Written(a) + " " + (Written(b) + " " + Written(c))
  {
    assert [a, b, c][1..] == [b, c] && [b, c][1..] == [c];
    assert Spaced([b, c]) == Written(b) + " " + Spaced([c]);
  }

  lemma SpacedMore(t: Token, ts: seq<Token>)
    requires ts != []
    ensures Spaced([t] + ts) == Written(t) + " " + Spaced(ts)
  {
    assert ([t] + ts)[1..] == ts;
  }

  lemma Regrouped(column: string, word: string, w: string, e: string, a: string)
    ensures "\"" + column + "\"" + " " + (word + " " + ("'" + w + e + a + "'" + " " + ("ESCAPE" + " " + "'\\'"))) ==
            "\"" + column + "\" " + (word + " '" + w) + e + (a + "' ESCAPE '\\'")
  {
    assert "'" + " " + ("ESCAPE" + " " + "'\\'") == "' ESCAPE '\\'";
  }

  lemma NotBefore(word: string, tail: string)
    ensures "NOT" + " " + (word + " " + tail) == "NOT " + word + " " + tail
  {
    assert "NOT" + " " == "NOT ";
  }

  lemma CompareGrouped(column: string, op: string, literal: string)
    ensures "\"" + column + "\"" + " " + (op + " " + literal) == "\"" + column + "\" " + op + " " + literal
  {
    assert "\"" + " " == "\" ";
  }

  lemma LikeWritten(column: string, before: bool, v: string, after: bool, negated: bool, caseless: bool)
    ensures Spaced(LikeTokens(column, before, v, after, negated, caseless)) ==
            "\"" + column + "\" " +
            (((if negated then "NOT " else "") + (if caseless then "ILIKE" else "LIKE")) + " '" + Wild(before)) +
            EscapeLike(v) + (Wild(after) + "' ESCAPE '\\'")
  {
    var word := if caseless then "ILIKE" else "LIKE";
    var like, literal := Word(word), Quoted(Wild(before) + PatternText(v) + Wild(after));
    var escape := Quoted("\\");
    EscapeWritten();
    LikeLiteral(before, v, after);
    hide EscapeLike; hide PatternText; hide Doubled; hide Wild; hide Spaced;
    var tail := [literal, Word("ESCAPE"), escape];
    var ts := [like] + tail;
    SpacedThree(literal, Word("ESCAPE"), escape);
    SpacedMore(like, tail);
    var full := (if negated then "NOT " else "") + word;
    Regrouped(column, full, Wild(before), EscapeLike(v), Wild(after));
    if negated {
      SpacedMore(Word("NOT"), ts);
      SpacedMore(Ident(column), [Word("NOT")] + ts);
      assert LikeTokens(column, before, v, after, negated, caseless) == [Ident(column)] + ([Word("NOT")] + ts);
      NotBefore(word, Spaced(tail));
    } else {
      SpacedMore(Ident(column), ts);
      assert LikeTokens(column, before, v, after, negated, caseless) == [Ident(column)] + ts;
    }
  }

  lemma EscapeWritten()
    ensures Written(Quoted("\\")) == "'\\'"
  {
    assert "\\"[1..] == "" && Doubled("\\", '\'') == "\\";
  }

  lemma FormattedWritten(value: string, columnType: Option<string>, shown: string -> Option<string>)
    requires Formatted(value, columnType, shown).Ok?
    ensures Formatted(value, columnType, shown).value == Written(LiteralToken(value, columnType, shown))
  {
    ReplaceIsDoubled(value);
  }

  lemma NullWritten(column: string)
    ensures Spaced([Ident(column), Word("is"), Word("null")]) == "\"" + column + "\" " + "is null"
    ensures Spaced([Ident(column), Word("is"), Word("not"), Word("null")]) == "\"" + column + "\" " + "is not null"
  {
    var name, tail := Ident(column), [Word("is"), Word("not"), Word("null")];
    SpacedThree(name, Word("is"), Word("null"));
    SpacedThree(Word("is"), Word("not"), Word("null"));
    SpacedMore(name, tail);
    assert [name, Word("is"), Word("not"), Word("null")] == [name] + tail;
    hide Spaced;
    assert "\"" + " " == "\" " && "is" + " " + "null" == "is null" && "is" + " " + ("not" + " " + "null") == "is not null";
  }

  lemma KeywordTexts()
    ensures "" + "LIKE" + " '" + "" == "LIKE '" && "" + "LIKE" + " '" + "%" == "LIKE '%"
    ensures "NOT " + "LIKE" + " '" + "" == "NOT LIKE '" && "NOT " + "LIKE" + " '" + "%" == "NOT LIKE '%"
    ensures "" + "ILIKE" + " '" + "%" == "ILIKE '%"
    ensures "%" + "' ESCAPE '\\'" == "%' ESCAPE '\\'" && "" + "' ESCAPE '\\'" == "' ESCAPE '\\'"
  { }

  /** The text of a condition is its tokens, one space apart. */
  lemma ConditionWritten(c: Condition, shown: string -> Option<string>)
    requires Displays(shown) && Valid(c) && !ListType(c.columnType)
    ensures ConditionToExpr(c, shown) == Ok(Spaced(TokensOf(c, shown)))
  {
    ValidExact(c, shown);
    var v := ValueOf(c);
    KeywordTexts();
    hide EscapeLike; hide Spaced; hide LikeTokens; hide Formatted;
    match c.operator
    case IsNull => NullWritten(c.column);
    case IsNotNull => NullWritten(c.column);
    case Contains => LikeWritten(c.column, true, v, true, false, false);
    case DoesNotContain => LikeWritten(c.column, true, v, true, true, false);
    case ILike => LikeWritten(c.column, true, v, true, false, true);
    case BeginsWith => LikeWritten(c.column, false, v, true, false, false);
    case DoesNotBeginWith => LikeWritten(c.column, false, v, true, true, false);
    case EndsWith => LikeWritten(c.column, true, v, false, false, false);
    case DoesNotEndWith => LikeWritten(c.column, true, v, false, true, false);
    case _ =>
      FormattedWritten(v, c.columnType, shown);
      CompareGrouped(c.column, OperatorText(c.operator), Formatted(v, c.columnType, shown).value);
      SpacedThree(Ident(c.column), Word(OperatorText(c.operator)), LiteralToken(v, c.columnType, shown));
  }

  // ------------------------------------------------------------- the text read back

  lemma ComparisonReads(c: Condition, shown: string -> Option<string>)
    requires Displays(shown) && Valid(c) && !ListType(c.columnType)
    requires !NullOperator(c.operator) && !LikeOperator(c.operator)
    ensures ReadPredicate(TokensOf(c, shown)) == Some(Expected(c)) <==> !NumeralChanged(c, shown)
  {
    var v := ValueOf(c);
    LiteralReads(v, c.columnType, shown);
    SignReads(c);
    CompareReads(c.column, OperatorText(c.operator), LiteralToken(v, c.columnType, shown));
    hide LiteralToken; hide OperandOf; hide ShownValue; hide ReadOperand; hide Displays; hide FloatText; hide ReadPredicate;
    hide OperatorText; hide Expected; hide ReadRelation;
  }

  lemma PredicateReads(c: Condition, shown: string -> Option<string>)
    requires Displays(shown) && Valid(c) && !ListType(c.columnType)
    ensures ReadPredicate(TokensOf(c, shown)) == Some(Expected(c)) <==> !NumeralChanged(c, shown)
  {
    if LikeOperator(c.operator) {
      LikeReads(c, shown);
      hide ReadPredicate; hide Expected; hide TokensOf;
    } else if NullOperator(c.operator) {
      NullReads(c.column);
      hide ReadPredicate;
    } else {
      ComparisonReads(c, shown);
      hide ReadPredicate; hide Expected; hide TokensOf;
    }
  }

  lemma NullReads(column: string)
    ensures ReadPredicate([Ident(column), Word("is"), Word("null")]) == Some(NullTest(column, false))
    ensures ReadPredicate([Ident(column), Word("is"), Word("not"), Word("null")]) == Some(NullTest(column, true))
  {
    hide ReadLike; hide ReadOperand;
  }

  lemma SignReads(c: Condition)
    requires !NullOperator(c.operator) && !LikeOperator(c.operator) && Valid(c) && !ListType(c.columnType)
    ensures Expected(c) == Compare(c.column, Expected(c).relation, OperandOf(ValueOf(c), c.columnType))
    ensures ReadRelation(OperatorText(c.operator)) == Some(Expected(c).relation)
  {
    hide OperandOf;
  }

  lemma CompareReads(column: string, sign: string, t: Token)
    requires ReadRelation(sign).Some?
    ensures var operand := ReadOperand(t);
            ReadPredicate([Ident(column), Word(sign), t]) ==
            if operand.None? then None else Some(Compare(column, ReadRelation(sign).value, operand.value))
  {
    hide ReadRelation; hide ReadOperand;
  }

  lemma LikeReads(c: Condition, shown: string -> Option<string>)
    requires Valid(c) && !ListType(c.columnType) && LikeOperator(c.operator)
    ensures ReadPredicate(TokensOf(c, shown)) == Some(Expected(c))
  {
    var v := ValueOf(c);
    match c.operator
    case Contains => LikeTokensRead(c.column, true, v, true, false, false);
    case DoesNotContain => LikeTokensRead(c.column, true, v, true, true, false);
    case ILike => LikeTokensRead(c.column, true, v, true, false, true);
    case BeginsWith => LikeTokensRead(c.column, false, v, true, false, false);
    case DoesNotBeginWith => LikeTokensRead(c.column, false, v, true, true, false);
    case EndsWith => LikeTokensRead(c.column, true, v, false, false, false);
    case DoesNotEndWith => LikeTokensRead(c.column, true, v, false, true, false);
  }

  lemma LikeTokensRead(column: string, before: bool, v: string, after: bool, negated: bool, caseless: bool)
    ensures ReadPredicate(LikeTokens(column, before, v, after, negated, caseless)) ==
            Some(Like(column, Sought(before, v, after), negated, caseless))
  {
    SoughtReads(before, v, after);
    hide ReadPattern; hide Sought;
    var text := Wild(before) + PatternText(v) + Wild(after);
    var ts := LikeTokens(column, before, v, after, negated, caseless);
    var like := [Word(if caseless then "ILIKE" else "LIKE"), Quoted(text), Word("ESCAPE"), Quoted("\\")];
    if negated {
      assert ts[2..] == like;
    } else {
      assert ts[1..] == like;
    }
  }

  lemma LiteralReads(value: string, columnType: Option<string>, shown: string -> Option<string>)
    requires Displays(shown) && (NumberType(columnType) ==> FloatText(value)) && (BoolType(columnType) ==> IsBool(value))
    ensures var o := OperandOf(value, columnType);
            ReadOperand(LiteralToken(value, columnType, shown)) == Some(o) <==>
            !o.NotFinite? && (o.Number? ==> ShownValue(value, shown) == Some(o.value))
  {
    DisplaysAt(value, shown);
    if shown(value).Some? { WordReads(shown(value).value); }
    hide Numeral; hide Displays; hide Lower;
  }

  lemma WordReads(text: string)
    requires Numeral(text).Some? || IsNotFinite(text)
    ensures ReadOperand(Word(text)) == if Numeral(text).Some? then Some(Number(Numeral(text).value)) else None
    ensures Inner(Word(text))
  {
    if Numeral(text).Some? {
      NumeralPlain(text);
      WordsAreNoNumerals();
      hide Numeral; hide Plain; hide NumeralChars;
    } else {
      hide Numeral;
    }
  }

  lemma WordsAreNoNumerals()
    ensures Numeral("true").None? && Numeral("false").None? && Numeral("AND").None?
  {
    hide Numeral;
    NotNumeral("true"); NotNumeral("false"); NotNumeral("AND");
  }

  /** What the reading below asks of a batch of conditions: each is valid and none is a list. */
  ghost predicate Scalar(conditions: seq<Condition>) {
    forall c | c in conditions :: Valid(c) && !ListType(c.columnType)
  }

  function AllTokens(conditions: seq<Condition>, shown: string -> Option<string>): (pieces: seq<seq<Token>>)
    requires Scalar(conditions)
    ensures |pieces| == |conditions|
    ensures forall i | 0 <= i < |conditions| :: pieces[i] == TokensOf(conditions[i], shown)
  {
    if conditions == [] then [] else [TokensOf(conditions[0], shown)] + AllTokens(conditions[1..], shown)
  }

  function AllExpected(conditions: seq<Condition>): (ps: seq<Predicate>)
    requires Scalar(conditions)
    ensures |ps| == |conditions|
    ensures forall i | 0 <= i < |conditions| :: ps[i] == Expected(conditions[i])
  {
    if conditions == [] then [] else [Expected(conditions[0])] + AllExpected(conditions[1..])
  }

  lemma {:induction false} SpacedAppend(ts: seq<Token>, us: seq<Token>)
    requires ts != [] && us != []
    ensures Spaced(ts + us) == Spaced(ts) + " " + Spaced(us)
  {
    if |ts| == 1 {
      assert ts + us == [ts[0]] + us;
      SpacedMore(ts[0], us);
    } else {
      SpacedAppend(ts[1..], us);
      assert ts + us == [ts[0]] + (ts[1..] + us);
      SpacedMore(ts[0], ts[1..] + us);
      assert ts == [ts[0]] + ts[1..];
      SpacedMore(ts[0], ts[1..]);
    }
  }

  lemma FirstTokens(conditions: seq<Condition>, shown: string -> Option<string>)
    requires Scalar(conditions) && conditions != []
    ensures AllTokens(conditions, shown) == [TokensOf(conditions[0], shown)] + AllTokens(conditions[1..], shown)
    ensures JoinedByAnd(AllTokens(conditions, shown)) ==
            if |conditions| == 1 then TokensOf(conditions[0], shown)
            else TokensOf(conditions[0], shown) + [AND] + JoinedByAnd(AllTokens(conditions[1..], shown))
  {
    var first, rest := TokensOf(conditions[0], shown), AllTokens(conditions[1..], shown);
    assert ([first] + rest)[1..] == rest;
    hide TokensOf;
  }

  /** The whole text is the conditions' tokens with AND between them, one space apart. */
  lemma {:induction false} AllWritten(texts: seq<string>, conditions: seq<Condition>, shown: string -> Option<string>)
    requires Displays(shown) && Scalar(conditions) && IsTextsOf(texts, conditions, shown)
    ensures Joined(texts, " AND ") == Spaced(JoinedByAnd(AllTokens(conditions, shown)))
    ensures conditions != [] ==> JoinedByAnd(AllTokens(conditions, shown)) != []
  {
    if conditions != [] {
      ConditionWritten(conditions[0], shown);
      FirstTokens(conditions, shown);
      var first := TokensOf(conditions[0], shown);
      hide TokensOf; hide ConditionToExpr; hide Valid; hide Spaced; hide AllTokens; hide JoinedByAnd; hide Displays; hide ListType; hide AND;
      assert texts[0] == Spaced(first);
      if |conditions| > 1 {
        AllWritten(texts[1..], conditions[1..], shown);
        hide Joined;
        WrittenStep(texts, first, JoinedByAnd(AllTokens(conditions[1..], shown)));
      }
    }
  }

  lemma WrittenStep(texts: seq<string>, first: seq<Token>, rest: seq<Token>)
    requires |texts| > 1 && first != [] && rest != []
    requires texts[0] == Spaced(first) && Joined(texts[1..], " AND ") == Spaced(rest)
    ensures Joined(texts, " AND ") == Spaced(first + [AND] + rest)
  {
    SpacedMore(AND, rest);
    SpacedAppend(first, [AND] + rest);
    Assoc(first, [AND], rest);
    AndBetween(Spaced(first), Spaced(rest));
    hide Spaced;
  }

  lemma AndBetween(x: string, y: string)
    ensures x + " " + ("AND" + " " + y) == x + " AND " + y
  {
    assert " " + "AND" + " " == " AND ";
  }

  /** Neither AND nor an identifier, and safe to write. */
  predicate Inner(t: Token) {
    t != AND && !t.Ident? && Writable(t)
  }

  lemma LikePlain(column: string, before: bool, v: string, after: bool, negated: bool, caseless: bool)
    ensures forall t | t in LikeTokens(column, before, v, after, negated, caseless)[1..] :: Inner(t)
  {
    var ts := LikeTokens(column, before, v, after, negated, caseless);
    var text := Wild(before) + PatternText(v) + Wild(after);
    assert Inner(Quoted(text)) && Inner(Quoted("\\"));
    var like := Word(if caseless then "ILIKE" else "LIKE");
    AllInner(like, Quoted(text), Word("ESCAPE"), Quoted("\\"));
    hide PatternText; hide Wild; hide Inner;
    var body := [like, Quoted(text), Word("ESCAPE"), Quoted("\\")];
    if negated {
      assert ts[1..] == [Word("NOT")] + body;
    } else {
      assert ts[1..] == body;
    }
  }

  lemma AllInner(a: Token, b: Token, c: Token, d: Token)
    requires Inner(a) && Inner(b) && Inner(c) && Inner(d)
    ensures forall t | t in [a, b, c, d] :: Inner(t)
  {
    hide Inner;
  }

  lemma AllLikePlain(c: Condition, shown: string -> Option<string>)
    requires Valid(c) && !ListType(c.columnType) && LikeOperator(c.operator)
    ensures forall t | t in TokensOf(c, shown)[1..] :: Inner(t)
  {
    var v := ValueOf(c);
    hide LikeTokens; hide Inner;
    match c.operator
    case Contains => LikePlain(c.column, true, v, true, false, false);
    case DoesNotContain => LikePlain(c.column, true, v, true, true, false);
    case ILike => LikePlain(c.column, true, v, true, false, true);
    case BeginsWith => LikePlain(c.column, false, v, true, false, false);
    case DoesNotBeginWith => LikePlain(c.column, false, v, true, true, false);
    case EndsWith => LikePlain(c.column, true, v, false, false, false);
    case DoesNotEndWith => LikePlain(c.column, true, v, false, true, false);
  }

  lemma BodyPlain(c: Condition, shown: string -> Option<string>)
    requires Displays(shown) && Valid(c) && !ListType(c.columnType)
    ensures forall t | t in TokensOf(c, shown)[1..] :: Inner(t)
  {
    if LikeOperator(c.operator) {
      AllLikePlain(c, shown);
    } else if NullOperator(c.operator) {
      hide Inner;
    } else {
      ComparePlain(c.operator);
      LiteralPlain(ValueOf(c), c.columnType, shown);
      hide LiteralToken; hide Inner;
      assert TokensOf(c, shown)[1..] ==
             [Word(OperatorText(c.operator)), LiteralToken(ValueOf(c), c.columnType, shown)];
    }
  }

  lemma ComparePlain(op: Operator)
    requires !NullOperator(op) && !LikeOperator(op)
    ensures Inner(Word(OperatorText(op)))
  { }

  lemma PiecePlain(c: Condition, shown: string -> Option<string>)
    requires Displays(shown) && Valid(c) && !ListType(c.columnType)
    ensures AND !in TokensOf(c, shown)
    ensures Names(TokensOf(c, shown)) == [c.column]
    ensures forall t | t in TokensOf(c, shown) :: t == Ident(c.column) || Inner(t)
  {
    var ts := TokensOf(c, shown);
    BodyPlain(c, shown);
    hide TokensOf;
    assert ts == [ts[0]] + ts[1..];
    NoNames(ts[1..]);
  }

  lemma LiteralPlain(value: string, columnType: Option<string>, shown: string -> Option<string>)
    requires Displays(shown) && (BoolType(columnType) ==> IsBool(value))
    ensures Inner(LiteralToken(value, columnType, shown))
  {
    DisplaysAt(value, shown);
    if shown(value).Some? { WordReads(shown(value).value); }
    if IsBool(value) { BoolPlain(value); }
    assert Inner(Quoted(value));
    hide Numeral; hide Displays; hide FloatText; hide Inner; hide IsBool; hide IsNotFinite;
  }

  lemma BoolPlain(value: string)
    requires IsBool(value)
    ensures Inner(Word(value))
  { }

  lemma PiecesPlain(conditions: seq<Condition>, shown: string -> Option<string>)
    requires Displays(shown) && Scalar(conditions)
    ensures forall piece | piece in AllTokens(conditions, shown) :: AND !in piece
  {
    forall i | 0 <= i < |conditions| ensures AND !in AllTokens(conditions, shown)[i] {
      PiecePlain(conditions[i], shown);
    }
  }

  lemma ColumnKept(c: Condition, shown: string -> Option<string>)
    requires Valid(c) && !ListType(c.columnType)
    ensures Expected(c).column == c.column
  { }

  lemma ColumnsFirst(p: Predicate, ps: seq<Predicate>)
    ensures Columns([p] + ps) == [p.column] + Columns(ps)
  { }

  lemma {:induction false} AllNames(conditions: seq<Condition>, shown: string -> Option<string>)
    requires Displays(shown) && Scalar(conditions)
    ensures Names(JoinedByAnd(AllTokens(conditions, shown))) == Columns(AllExpected(conditions))
  {
    if conditions != [] {
      PiecePlain(conditions[0], shown);
      FirstTokens(conditions, shown);
      ColumnKept(conditions[0], shown);
      ColumnsFirst(Expected(conditions[0]), AllExpected(conditions[1..]));
      AllNames(conditions[1..], shown);
      var first, rest := TokensOf(conditions[0], shown), JoinedByAnd(AllTokens(conditions[1..], shown));
      hide TokensOf; hide Expected; hide AllTokens; hide JoinedByAnd; hide Scalar; hide Valid; hide Names; hide Inner; hide Displays; hide Columns;
      if |conditions| > 1 {
        AndHasNoName(rest);
        NamesAppend(first, [AND] + rest);
        Assoc(first, [AND], rest);
      } else {
        NoColumns(conditions[1..], shown);
      }
    }
  }

  lemma NoColumns(conditions: seq<Condition>, shown: string -> Option<string>)
    requires conditions == []
    ensures Columns(AllExpected(conditions)) == []
  { }

  lemma {:induction false} AllPlain(conditions: seq<Condition>, shown: string -> Option<string>)
    requires Displays(shown) && Scalar(conditions)
    ensures forall t | t in JoinedByAnd(AllTokens(conditions, shown)) ::
              Writable(t) || (t.Ident? && exists c | c in conditions :: t == Ident(c.column))
  {
    if conditions != [] {
      var first := conditions[0];
      PiecePlain(first, shown);
      FirstTokens(conditions, shown);
      assert conditions == [first] + conditions[1..];
      AllPlain(conditions[1..], shown);
      AndHasNoName([]);
      hide TokensOf; hide Valid; hide ListType; hide Writable; hide Displays; hide AllTokens; hide JoinedByAnd; hide Inner;
    }
  }

  lemma {:induction false} AllNamed(conditions: seq<Condition>, shown: string -> Option<string>)
    requires Scalar(conditions)
    ensures forall c | c in conditions :: Ident(c.column) in JoinedByAnd(AllTokens(conditions, shown))
  {
    if conditions != [] {
      var first := conditions[0];
      FirstTokens(conditions, shown);
      assert TokensOf(first, shown)[0] == Ident(first.column);
      assert conditions == [first] + conditions[1..];
      AllNamed(conditions[1..], shown);
      hide TokensOf; hide Valid; hide ListType; hide AllTokens; hide JoinedByAnd;
    }
  }

  lemma AndHasNoName(ts: seq<Token>)
    ensures Names([AND] + ts) == Names(ts) && Writable(AND)
  {
    assert ([AND] + ts)[1..] == ts;
  }

  lemma ReadFirst(piece: seq<Token>, pieces: seq<seq<Token>>, p: Predicate, ps: seq<Predicate>)
    ensures ReadAll([piece] + pieces) == Some([p] + ps) <==> ReadPredicate(piece) == Some(p) && ReadAll(pieces) == Some(ps)
  {
    hide ReadPredicate;
    assert ([piece] + pieces)[1..] == pieces && ([p] + ps)[1..] == ps;
    var rest := ReadAll(pieces);
    if rest.Some? && ReadPredicate(piece).Some? {
      assert ([ReadPredicate(piece).value] + rest.value)[1..] == rest.value;
      assert ([p] + ps)[0] == p;
    }
  }

  lemma {:induction false} AllRead(conditions: seq<Condition>, shown: string -> Option<string>)
    requires Displays(shown) && Scalar(conditions)
    ensures ReadAll(AllTokens(conditions, shown)) == Some(AllExpected(conditions)) <==>
            forall c | c in conditions :: !NumeralChanged(c, shown)
  {
    if conditions != [] {
      var first, rest := conditions[0], conditions[1..];
      PredicateReads(first, shown);
      assert conditions == [first] + rest;
      AllRead(rest, shown);
      hide TokensOf; hide Expected; hide Valid; hide NumeralChanged; hide ReadPredicate; hide ReadAll; hide Displays;
      ReadFirst(TokensOf(first, shown), AllTokens(rest, shown), Expected(first), AllExpected(rest));
    }
  }

  lemma QuotedColumnMisread(conditions: seq<Condition>, shown: string -> Option<string>)
    requires Displays(shown) && Scalar(conditions) && exists c | c in conditions :: '"' in c.column
    ensures ReadFilter(Spaced(JoinedByAnd(AllTokens(conditions, shown)))) != Some(AllExpected(conditions))
  {
    var ts := JoinedByAnd(AllTokens(conditions, shown));
    AllNames(conditions, shown);
    AllPlain(conditions, shown);
    AllNamed(conditions, shown);
    var c :| c in conditions && '"' in c.column;
    assert !Writable(Ident(c.column));
    hide Scalar; hide Valid; hide Names; hide Tokens; hide Displays; hide JoinedByAnd; hide AllTokens; hide Writable; hide ReadFilter; hide Spaced;
    QuotedNameMisread(ts);
    if ReadFilter(Spaced(ts)).Some? { ColumnsAreNames(Spaced(ts)); }
  }

  lemma PlainColumnsRead(conditions: seq<Condition>, shown: string -> Option<string>)
    requires Displays(shown) && Scalar(conditions) && conditions != []
    requires forall c | c in conditions :: '"' !in c.column
    ensures ReadFilter(Spaced(JoinedByAnd(AllTokens(conditions, shown)))) == ReadAll(AllTokens(conditions, shown))
  {
    AllPlain(conditions, shown);
    PiecesPlain(conditions, shown);
    hide Scalar; hide Valid; hide Tokens; hide Displays; hide AllTokens;
    var pieces := AllTokens(conditions, shown);
    assert pieces != [] by { assert |pieces| == |conditions|; }
    SpacedReads(JoinedByAnd(pieces));
    SplitJoined(pieces);
    hide JoinedByAnd; hide Spaced; hide SplitAtAnd; hide ReadAll;
  }

  /** The text reads back as the conjunction of its conditions exactly when there is one, no
      column's name holds a double quote, and every number is finite and displayed with its own
      value: whatever the texts hold, quotes, AND and wildcards included. */
  lemma FilterReadsExact(texts: seq<string>, conditions: seq<Condition>, shown: string -> Option<string>)
    requires Displays(shown) && Scalar(conditions) && IsTextsOf(texts, conditions, shown)
    ensures ReadFilter(Joined(texts, " AND ")) == Some(AllExpected(conditions)) <==>
            conditions != [] && forall c | c in conditions :: '"' !in c.column && !NumeralChanged(c, shown)
  {
    AllWritten(texts, conditions, shown);
    if conditions == [] {
      EmptyUnread();
    } else if forall c | c in conditions :: '"' !in c.column {
      PlainColumnsRead(conditions, shown);
      AllRead(conditions, shown);
    } else {
      QuotedColumnMisread(conditions, shown);
    }
    hide *;
  }

  const LEADING := "900719925474099"
  const LARGE := LEADING + "3"
  const ROUNDED := LEADING + "2"

  lemma LastDigitDiffers(s: string)
    requires AllDigits(s)
    ensures Numeral(s + "3").Some? && Numeral(s + "3") != Numeral(s + "2")
  {
    hide Numeral; hide DigitsValue;
    var x, y := s + "3", s + "2";
    DigitsNumeral(x);
    DigitsNumeral(y);
    DigitsDiffer(x, y);
    assert x[|s|] == '3' && y[|s|] == '2';
  }

  lemma NumberChanged(c: Condition, text: string, shown: string -> Option<string>)
    requires Displays(shown) && shown(ValueOf(c)) == Some(text)
    requires c.columnType == Some("int") && c.operator.Equal? && Numeral(ValueOf(c)).Some?
    requires Numeral(text) != Numeral(ValueOf(c))
    ensures Valid(c) && ConditionToExpr(c, shown) == Ok("\"" + c.column + "\" " + "=" + " " + text)
    ensures ReadFilter(ConditionToExpr(c, shown).value) != Some([Expected(c)])
  {
    hide Numeral; hide Displays; hide Lower; hide ReadFilter; hide Expected; hide EscapeLike;
    var written := ConditionToExpr(c, shown).value;
    assert IsTextsOf([written], [c], shown);
    FilterReadsExact([written], [c], shown);
    assert c in [c] && Joined([written], " AND ") == written;
    assert AllExpected([c]) == [Expected(c)];
  }

  lemma LeadingDigits()
    ensures AllDigits(LEADING)
  { }

  /** 2^53 + 1, which a `f64` displays as 2^53, is compared as 2^53. */
  lemma LargeIntegerChanged(column: string, shown: string -> Option<string>)
    requires Displays(shown) && shown(LARGE) == Some(ROUNDED)
    ensures var c, text := Condition(column, Equal, Some(LARGE), Some("int")), "\"" + column + "\" " + "=" + " " + ROUNDED;
            Valid(c) && ConditionToExpr(c, shown) == Ok(text) && ReadFilter(text) != Some([Expected(c)])
  {
    hide Numeral; hide AllDigits; hide Displays; hide Lower; hide ReadFilter; hide Expected; hide ConditionToExpr; hide LEADING; hide Valid;
    LeadingDigits();
    LastDigitDiffers(LEADING);
    var c := Condition(column, Equal, Some(LARGE), Some("int"));
    NumberChanged(c, ROUNDED, shown);
  }

  lemma EmptyUnread()
    ensures ReadFilter("").None?
  { }

  // ------------------------------------------------------------------------ list columns

  /** What a condition on a list column asks: equality, or having every item. */
  function ListAsked(c: Condition): ListTest {
    ListTest(c.column, c.operator.Equal? || c.operator.NotEqual?, c.operator.NotEqual? || c.operator.DoesNotContain?,
             InnerValue(ValueOf(c)))
  }

  /** Its text is read as asked exactly when its name holds no double quote, whatever the items. */
  lemma ListReadsExact(c: Condition, shown: string -> Option<string>)
    requires ListType(c.columnType) && !NullOperator(c.operator) && Valid(c)
    ensures ConditionToExpr(c, shown).Ok?
    ensures ReadListTest(ConditionToExpr(c, shown).value) == Some(ListAsked(c)) <==> '"' !in c.column
  {
    var items := InnerValue(ValueOf(c));
    HasAllGrouped(c.column, items);
    hide InnerValue; hide ReadListTest; hide HAS_ALL;
    match c.operator
    case Contains => HasAllReads(c.column, items);
    case DoesNotContain => HasAllReads(c.column, items);
    case Equal => WholeReads(c.column, items);
    case NotEqual => WholeReads(c.column, items);
  }

  function HasAllText(column: string, items: string): string {
    "array_has_all(\"" + column + "\", ARRAY[" + items + "])"
  }

  lemma HasAllReads(column: string, items: string)
    ensures '"' !in column <==> ReadListTest(HasAllText(column, items)) == Some(ListTest(column, false, false, items))
    ensures '"' !in column <==> ReadListTest("NOT " + HasAllText(column, items)) == Some(ListTest(column, false, true, items))
  {
    NameItemsRead(column, ", ARRAY[", items, "])");
    HasAllRead("\"" + column + "\"" + ", ARRAY[" + items + "])");
    HasAllGrouped(column, items);
    hide ReadNameItems; hide ReadListTest; hide ReadHasAll; hide HasAllText; hide HAS_ALL;
  }

  lemma HasAllGrouped(column: string, items: string)
    ensures HasAllText(column, items) == HAS_ALL + ("\"" + column + "\"" + ", ARRAY[" + items + "])")
    ensures "NOT " + HasAllText(column, items) == "NOT array_has_all(\"" + column + "\", ARRAY[" + items + "])"
  {
    assert "NOT " + "array_has_all(\"" == "NOT array_has_all(\"";
    assert HAS_ALL + "\"" == "array_has_all(\"";
    assert "\"" + ", ARRAY[" == "\", ARRAY[";
  }

  lemma WholeReads(column: string, items: string)
    ensures '"' !in column <==> ReadListTest("\"" + column + "\" = ARRAY[" + items + "]") == Some(ListTest(column, true, false, items))
    ensures '"' !in column <==> ReadListTest("\"" + column + "\" != ARRAY[" + items + "]") == Some(ListTest(column, true, true, items))
  {
    NameItemsRead(column, " = ARRAY[", items, "]");
    NameItemsRead(column, " != ARRAY[", items, "]");
    UnequalRead(column, items);
    WholeGrouped(column, items);
    WholeRead("\"" + column + "\"" + " = ARRAY[" + items + "]");
    WholeRead("\"" + column + "\"" + " != ARRAY[" + items + "]");
    hide ReadNameItems; hide ReadListTest;
  }

  lemma WholeGrouped(column: string, items: string)
    ensures "\"" + column + "\" = ARRAY[" + items + "]" == "\"" + column + "\"" + " = ARRAY[" + items + "]"
    ensures "\"" + column + "\" != ARRAY[" + items + "]" == "\"" + column + "\"" + " != ARRAY[" + items + "]"
  {
    assert "\"" + " = ARRAY[" == "\" = ARRAY[" && "\"" + " != ARRAY[" == "\" != ARRAY[";
  }

  // -------------------------------------------------------------------------- meaning

  function TextOf<Cell>(c: Condition, row: string -> Cell, e: Engine<Cell>): Option<string> {
    e.text(row(c.column))
  }

  /** What a condition asks of a row, in the condition's own terms. */
  ghost function Meaning<Cell>(c: Condition, row: string -> Cell, e: Engine<Cell>): Truth
    requires Valid(c) && !ListType(c.columnType)
  {
    var v, same := ValueOf(c), (x: char) => x;
    var s := TextOf(c, row, e);
    match c.operator
    case IsNull => Of(e.isNull(row(c.column)))
    case IsNotNull => Of(!e.isNull(row(c.column)))
    case Contains => if s.None? then Unknown else Of(HasInfix(s.value, v, same))
    case DoesNotContain => if s.None? then Unknown else Of(!HasInfix(s.value, v, same))
    case ILike => if s.None? then Unknown else Of(HasInfix(s.value, v, e.fold))
    case BeginsWith => if s.None? then Unknown else Of(HasPrefix(s.value, v, same))
    case DoesNotBeginWith => if s.None? then Unknown else Of(!HasPrefix(s.value, v, same))
    case EndsWith => if s.None? then Unknown else Of(HasSuffix(s.value, v, same))
    case DoesNotEndWith => if s.None? then Unknown else Of(!HasSuffix(s.value, v, same))
    case _ =>
      var order := e.order(row(c.column), OperandOf(v, c.columnType));
      if order.None? then Unknown else Of(Meets(c.operator, order.value))
  }

  lemma RelationMeets(c: Condition, order: Order)
    requires Valid(c) && !ListType(c.columnType) && !NullOperator(c.operator) && !LikeOperator(c.operator)
    ensures Expected(c) == Compare(c.column, Expected(c).relation, OperandOf(ValueOf(c), c.columnType))
    ensures Related(Expected(c).relation, order) <==> Meets(c.operator, order)
  {
    hide OperandOf;
  }

  /** A cell in that order to the value meets the comparison. */
  predicate Meets(op: Operator, order: Order) {
    || (order.Below? && op in {LessThan, LessThanOrEqual, NotEqual})
    || (order.Same? && op in {Equal, LessThanOrEqual, GreaterThanOrEqual})
    || (order.Above? && op in {GreaterThan, GreaterThanOrEqual, NotEqual})
  }

  lemma SoughtMeans(v: string, s: string, fold: char -> char)
    ensures Matches(Sought(true, v, true), s, fold) <==> HasInfix(s, v, fold)
    ensures Matches(Sought(false, v, true), s, fold) <==> HasPrefix(s, v, fold)
    ensures Matches(Sought(true, v, false), s, fold) <==> HasSuffix(s, v, fold)
  {
    InfixPattern(v, s, fold);
    PrefixPattern(v, s, fold);
    SuffixPattern(v, s, fold);
    assert Sought(false, v, true) == Exact(v) + [Any] && Sought(true, v, false) == [Any] + Exact(v);
  }

  lemma ExpectedMeans<Cell>(c: Condition, row: string -> Cell, e: Engine<Cell>)
    requires Valid(c) && !ListType(c.columnType)
    ensures Evaluate(Expected(c), row, e) == Meaning(c, row, e)
  {
    var s := TextOf(c, row, e);
    if LikeOperator(c.operator) {
      if s.Some? {
        SoughtMeans(ValueOf(c), s.value, Folding(e, c.operator.ILike?));
        SameFold(e, ValueOf(c), s.value);
      }
      hide Sought; hide Matches; hide HasInfix; hide HasPrefix; hide HasSuffix; hide Related; hide Meets; hide OperandOf;
    } else if !NullOperator(c.operator) {
      SignReads(c);
      var order := e.order(row(c.column), OperandOf(ValueOf(c), c.columnType));
      if order.Some? { RelationMeets(c, order.value); }
      hide Expected; hide OperandOf; hide Meets; hide Related; hide OperatorText; hide ReadRelation;
    }
  }

  lemma SameFold<Cell>(e: Engine<Cell>, v: string, s: string)
    ensures var same := (x: char) => x;
            && (HasInfix(s, v, Folding(e, false)) <==> HasInfix(s, v, same))
            && (HasPrefix(s, v, Folding(e, false)) <==> HasPrefix(s, v, same))
            && (HasSuffix(s, v, Folding(e, false)) <==> HasSuffix(s, v, same))
  { }

  lemma {:induction false} AllTrue<Cell>(ps: seq<Predicate>, row: string -> Cell, e: Engine<Cell>)
    ensures EvaluateAll(ps, row, e) == True <==> forall i | 0 <= i < |ps| :: Evaluate(ps[i], row, e) == True
  {
    if ps != [] {
      AllTrue(ps[1..], row, e);
      hide Evaluate;
      var rest := ps[1..];
      assert forall i | 0 < i < |ps| :: ps[i] == rest[i - 1];
      assert forall i | 0 <= i < |rest| :: rest[i] == ps[i + 1];
    }
  }

  /** A WHERE clause with the text keeps exactly the rows that meet every condition. */
  lemma FilterMeans<Cell>(texts: seq<string>, conditions: seq<Condition>, shown: string -> Option<string>,
                          row: string -> Cell, e: Engine<Cell>)
    requires Displays(shown) && Scalar(conditions) && IsTextsOf(texts, conditions, shown)
    requires conditions != [] && forall c | c in conditions :: '"' !in c.column && !NumeralChanged(c, shown)
    ensures var r := ReadFilter(Joined(texts, " AND "));
            r.Some? && (EvaluateAll(r.value, row, e) == True <==>
                        forall c | c in conditions :: Meaning(c, row, e) == True)
  {
    FilterReadsExact(texts, conditions, shown);
    AllTrue(AllExpected(conditions), row, e);
    forall c | c in conditions ensures Evaluate(Expected(c), row, e) == Meaning(c, row, e) {
      ExpectedMeans(c, row, e);
    }
    hide Evaluate; hide Meaning; hide Expected; hide ReadFilter; hide Joined; hide Valid; hide NumeralChanged;
  }
}
