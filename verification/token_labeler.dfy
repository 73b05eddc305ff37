/** The expression tokenizer: the operator table, the token classifier, the
    repair pass that glues quoted literals split by the keyword splitter back
    together, and the cursor the filter parser walks the tokens with.

    The splitter itself is a regular expression built from the keyword lists;
    the model takes its output, the list of fragments, as given. */
module TokenLabeler {
  import opened Wrappers
  import opened SeqUtil
  import Values

  // ---------------------------------------------------------------------------
  // Text primitives

  /** The characters Python's `str.isspace` accepts, which `str.strip` removes. */
  predicate IsSpace(c: char) {
    || c == ' ' || c == '\t' || c == '\n' || c == '\r'
    || c == '\U{000B}' || c == '\U{000C}'
    || ('\U{001C}' <= c <= '\U{001F}')
    || c == '\U{0085}' || c == '\U{00A0}' || c == '\U{1680}'
    || ('\U{2000}' <= c <= '\U{200A}')
    || c == '\U{2028}' || c == '\U{2029}' || c == '\U{202F}' || c == '\U{205F}' || c == '\U{3000}'
  }

  /** The number of leading whitespace characters. */
  function Lead(s: string): (n: nat)
    ensures n <= |s|
    ensures forall i :: 0 <= i < n ==> IsSpace(s[i])
    ensures n < |s| ==> !IsSpace(s[n])
  {
    if |s| == 0 || !IsSpace(s[0]) then 0 else 1 + Lead(s[1..])
  }

  /** The number of trailing whitespace characters. */
  function Trail(s: string): (n: nat)
    ensures n <= |s|
    ensures forall i :: |s| - n <= i < |s| ==> IsSpace(s[i])
    ensures n < |s| ==> !IsSpace(s[|s| - 1 - n])
  {
    if |s| == 0 || !IsSpace(s[|s| - 1]) then 0 else 1 + Trail(s[..|s| - 1])
  }

  /** `s.strip()`: `s` without its leading and trailing whitespace. */
  function Strip(s: string): (r: string)
    ensures |r| <= |s|
    ensures |r| > 0 ==> !IsSpace(r[0]) && !IsSpace(r[|r| - 1])
  {
    var a := Lead(s);
    if a == |s| then []
    else
      var b := Trail(s);
      assert a < |s| - b by {
        assert !IsSpace(s[a]);
      }
      s[a..|s| - b]
  }

  /** What `strip` removes is whitespace and only whitespace: the result is the
      slice of `s` between its leading and its trailing whitespace, and it is
      empty exactly when `s` is all whitespace. */
  lemma StripShape(s: string)
    ensures var r := Strip(s);
      && (|r| == 0 <==> forall i :: 0 <= i < |s| ==> IsSpace(s[i]))
      && Lead(s) + |r| <= |s| && r == s[Lead(s)..Lead(s) + |r|]
      && forall i :: Lead(s) + |r| <= i < |s| ==> IsSpace(s[i])
  {
  }

  lemma StripIdempotent(s: string)
    ensures Strip(Strip(s)) == Strip(s)
  {
    var r := Strip(s);
    if |r| > 0 {
      assert Lead(r) == 0;
      assert Trail(r) == 0;
    }
  }

  /** `s.strip() != ""` */
  predicate NonBlank(s: string) {
    |Strip(s)| > 0
  }

  /** Appending to a fragment that is not blank leaves it not blank. */
  lemma NonBlankAppend(a: string, b: string)
    requires NonBlank(b)
    ensures NonBlank(a + b)
  {
    StripShape(b);
    StripShape(a + b);
    var k := Lead(b);
    assert !IsSpace(b[k]);
    assert (a + b)[|a| + k] == b[k];
  }

  /** `c.upper()` on ASCII letters; every other character is left alone. */
  function UpperChar(c: char): (u: char)
    ensures 'a' <= c <= 'z' ==> 'A' <= u <= 'Z' && u as int == c as int - 32
    ensures !('a' <= c <= 'z') ==> u == c
  {
    if 'a' <= c <= 'z' then (c as int - 32) as char else c
  }

  /** `s.upper()` */
  function Upper(s: string): (u: string)
    ensures |u| == |s|
    ensures forall i :: 0 <= i < |s| ==> u[i] == UpperChar(s[i])
  {
    seq(|s|, i requires 0 <= i < |s| => UpperChar(s[i]))
  }

  lemma UpperIdempotent(s: string)
    ensures Upper(Upper(s)) == Upper(s)
    ensures forall i :: 0 <= i < |s| ==> !('a' <= Upper(s)[i] <= 'z')
  {
  }

  /** `needle` occurs in `hay` starting at position `i`. */
  predicate OccursAt(needle: string, hay: string, i: nat) {
    i + |needle| <= |hay| && forall k :: 0 <= k < |needle| ==> hay[i + k] == needle[k]
  }

  /** `hay.find(needle)`: the first position at which `needle` occurs. */
  function Find(needle: string, hay: string): (o: Option<nat>)
    ensures o.Some? ==> OccursAt(needle, hay, o.value)
    ensures o.Some? ==> forall j :: 0 <= j < o.value ==> !OccursAt(needle, hay, j)
    ensures o.None? ==> forall j :: 0 <= j <= |hay| ==> !OccursAt(needle, hay, j)
    decreases |hay|
  {
    if OccursAt(needle, hay, 0) then Some(0)
    else if |hay| == 0 then None
    else
      var o := Find(needle, hay[1..]);
      assert forall j :: 1 <= j <= |hay| ==> (OccursAt(needle, hay, j) <==> OccursAt(needle, hay[1..], j - 1)) by {
        forall j | 1 <= j <= |hay|
          ensures OccursAt(needle, hay, j) <==> OccursAt(needle, hay[1..], j - 1)
        {
        }
      }
      if o.Some? then Some(o.value + 1) else None
  }

  // ---------------------------------------------------------------------------
  // Operators

  /** The comparison each operator keyword stands for. */
  datatype Op = Ne | Ge | Le | Gt | Lt | Eq | IsNot | Is | NotLike | Like | In | Contains

  /** `OPERATORS`, in its declaration order, which the splitter's alternation
      follows. */
  const OPERATORS: seq<(string, Op)> := [
    ("<>", Ne), (">=", Ge), ("<=", Le), (">", Gt), ("<", Lt), ("==", Eq), ("!=", Ne),
    ("=", Eq), ("IS NOT", IsNot), ("IS", Is), ("NOT LIKE", NotLike), ("LIKE", Like),
    ("IN", In), ("CONTAINS", Contains)
  ]

  function OperatorNames(): (ns: seq<string>)
    ensures |ns| == |OPERATORS|
    ensures forall i :: 0 <= i < |OPERATORS| ==> ns[i] == OPERATORS[i].0
  {
    seq(|OPERATORS|, i requires 0 <= i < |OPERATORS| => OPERATORS[i].0)
  }

  predicate ProperPrefix(a: string, b: string) {
    |a| < |b| && b[..|a|] == a
  }

  /** A keyword that begins another keyword is listed after it (`<>` and `<=`
      before `<`, `>=` before `>`, `==` before `=`, `IS NOT` before `IS`), so
      an alternation tried in table order never stops at the shorter one; and
      no keyword is listed twice. */
  lemma OperatorsLongestFirst()
    ensures forall i, j :: 0 <= i < j < |OPERATORS| ==> !ProperPrefix(OPERATORS[i].0, OPERATORS[j].0)
    ensures Values.NoDup(OperatorNames())
  {
    forall i, j | 0 <= i < j < |OPERATORS|
      ensures !ProperPrefix(OPERATORS[i].0, OPERATORS[j].0)
      ensures OPERATORS[i].0 != OPERATORS[j].0
    {
      var a, b := OPERATORS[i].0, OPERATORS[j].0;
      assert |a| > |b| || a[0] != b[0] || (|a| == |b| && a[|a| - 1] != b[|b| - 1]);
    }
  }

  /** `x in container`, for the values the model interprets: a substring test
      on strings, an equality scan on lists and a key test on dicts. A container
      of another kind, and an uninterpreted value looked for in a dict (which
      may be hashable or not), are decided by `otherIn`; a scalar container, a
      non-string looked for in a string and a list or dict looked for in a dict
      fail with TypeError. */
  function Member(x: Values.Value, container: Values.Value, otherIn: (Values.Value, Values.Value) -> Result<bool>): (r: Result<bool>)
    ensures container.Str? ==> r == if x.Str? then Ok(Find(x.s, container.s).Some?) else Err(TypeError)
    ensures container.List? ==> r == Ok(x in container.items)
    ensures container.Dict? && (x.List? || x.Dict?) ==> r == Err(TypeError)
    ensures container.Dict? && x.Str? ==> r == Ok(x.s in Values.Keys(container.fields))
    ensures container.Dict? && (x.Null? || x.Bool? || x.Int?) ==> r == Ok(false)
    ensures container.Dict? && x.Other? ==> r == otherIn(x, container)
    ensures container.Null? || container.Bool? || container.Int? ==> r == Err(TypeError)
  {
    match container
    case Str(s) => if x.Str? then Ok(Find(x.s, s).Some?) else Err(TypeError)
    case List(items) => Ok(x in items)
    case Dict(fields) =>
      (match x
       case List(_) => Err(TypeError)
       case Dict(_) => Err(TypeError)
       case Str(k) => Ok(k in Values.Keys(fields))
       case Other(_, _) => otherIn(x, container)
       case _ => Ok(false))
    case Other(_, _) => otherIn(x, container)
    case _ => Err(TypeError)
  }

  /** `function_in(x, y)`: `x in y`. */
  function FunctionIn(x: Values.Value, y: Values.Value, otherIn: (Values.Value, Values.Value) -> Result<bool>): (r: Result<bool>)
    ensures y.List? ==> r == Ok(x in y.items)
  {
    Member(x, y, otherIn)
  }

  /** `function_contains(x, y)`: `y in x`. */
  function FunctionContains(x: Values.Value, y: Values.Value, otherIn: (Values.Value, Values.Value) -> Result<bool>): (r: Result<bool>)
    ensures x.List? ==> r == Ok(y in x.items)
  {
    Member(y, x, otherIn)
  }

  /** `CONTAINS` is `IN` with its operands swapped; a string contains each of
      its own substrings. */
  lemma ContainsIsFlippedIn(x: Values.Value, y: Values.Value, otherIn: (Values.Value, Values.Value) -> Result<bool>)
    ensures FunctionContains(x, y, otherIn) == FunctionIn(y, x, otherIn)
    ensures x.Str? && y.Str? && (exists i :: 0 <= i <= |x.s| && OccursAt(y.s, x.s, i)) ==> FunctionContains(x, y, otherIn) == Ok(true)
  {
  }

  // ---------------------------------------------------------------------------
  // Classification

  /** `TOKENS` */
  datatype Kind =
    | Integer | Float | Literal | Variable | Boolean | Date | Null
    | LeftParentheses | RightParentheses | Comma | Function | Aggregator | As
    | Unknown | Everything | Operator | And | Or | Not

  /** What the classifier consults but this module does not define: the names
      of the inline functions and of the aggregators (upper case), the ISO 8601
      date parser, `fastnumbers.isint`/`isfloat`, and which non-ASCII
      characters are word characters other than digits. */
  datatype Lexicon = Lexicon(
    functions: set<string>,
    aggregators: set<string>,
    parseIso: string -> bool,
    isInt: string -> bool,
    isFloat: string -> bool,
    wordStart: char -> bool)

  /** The first character of `^[^\d\W][\w\-\.]*`: a word character that is not
      a digit. The pattern is searched without an end anchor, so the rest of the
      token is never constrained. */
  predicate IdentifierStart(c: char, lx: Lexicon) {
    ('a' <= c <= 'z') || ('A' <= c <= 'Z') || c == '_' || (c as int > 0x7F && lx.wordStart(c))
  }

  /** `token[1:-1]` */
  function Interior(token: string): (s: string)
    ensures |token| >= 2 ==> s == token[1..|token| - 1]
    ensures |token| < 2 ==> s == []
  {
    if |token| >= 2 then token[1..|token| - 1] else []
  }

  predicate Wrapped(token: string, q: char) {
    |token| > 0 && token[0] == q && token[|token| - 1] == q
  }

  /** The kind of an identifier-shaped token, from its upper-case spelling. */
  function Keyword(u: string): (k: Kind)
    ensures k == Boolean <==> u == "TRUE" || u == "FALSE"
    ensures k == Null <==> u == "NULL" || u == "NONE"
    ensures k == And <==> u == "AND"
    ensures k == Or <==> u == "OR"
    ensures k == Not <==> u == "NOT"
    ensures k == As <==> u == "AS"
    ensures k != Variable ==> k in {Boolean, Null, And, Or, Not, As}
  {
    if u == "TRUE" || u == "FALSE" then Boolean
    else if u == "NULL" || u == "NONE" then Null
    else if u == "AND" then And
    else if u == "OR" then Or
    else if u == "NOT" then Not
    else if u == "AS" then As
    else Variable
  }

  /** `get_token_type(token)`. An empty token fails on `token[0]`. */
  function Classify(token: string, lx: Lexicon): (k: Result<Kind>)
    ensures k.Ok? <==> |token| > 0
    ensures k.Err? ==> k.error == IndexError
    ensures Wrapped(token, '`') ==> k == Ok(Variable)
    ensures k == Ok(Everything) <==> token == "*"
    ensures k == Ok(Date) ==> (Wrapped(token, '"') || Wrapped(token, '\'')) && lx.parseIso(Interior(token))
    ensures k.Ok? ==> k.value != Comma
  {
    if |token| == 0 then Err(IndexError)
    else
      var u := Upper(token);
      Ok(
        if Wrapped(token, '`') then Variable
        else if token == "*" then Everything
        else if u in lx.functions then Function
        else if u in OperatorNames() then Operator
        else if u in lx.aggregators then Aggregator
        else if Wrapped(token, '"') || Wrapped(token, '\'') then
          (if lx.parseIso(Interior(token)) then Date else Literal)
        else if lx.isInt(token) then Integer
        else if lx.isFloat(token) then Float
        else if token == "(" || token == "[" then LeftParentheses
        else if token == ")" || token == "]" then RightParentheses
        else if IdentifierStart(token[0], lx) then Keyword(u)
        else Unknown)
  }

  /** The classifier's tests, in the order they are tried. */
  datatype Rule =
    | Backticked | Star | FunctionName | OperatorName | AggregatorName | Quoted
    | IntegerText | FloatText | Opening | Closing | Identifier | Anything

  const RULES: seq<Rule> := [
    Backticked, Star, FunctionName, OperatorName, AggregatorName, Quoted,
    IntegerText, FloatText, Opening, Closing, Identifier, Anything
  ]

  /** Whether a rule's test accepts the token, each stated on its own. */
  predicate Applies(rule: Rule, token: string, lx: Lexicon)
    requires |token| > 0
  {
    match rule
    case Backticked => token[0] == '`' && token[|token| - 1] == '`'
    case Star => token == "*"
    case FunctionName => Upper(token) in lx.functions
    case OperatorName => Upper(token) in OperatorNames()
    case AggregatorName => Upper(token) in lx.aggregators
    case Quoted => token[0] in {'"', '\''} && token[|token| - 1] == token[0]
    case IntegerText => lx.isInt(token)
    case FloatText => lx.isFloat(token)
    case Opening => token in {"(", "["}
    case Closing => token in {")", "]"}
    case Identifier => IdentifierStart(token[0], lx)
    case Anything => true
  }

  /** The kind a rule assigns once its test accepts. */
  function Outcome(rule: Rule, token: string, lx: Lexicon): Kind
    requires |token| > 0
  {
    match rule
    case Backticked => Variable
    case Star => Everything
    case FunctionName => Function
    case OperatorName => Operator
    case AggregatorName => Aggregator
    case Quoted => if lx.parseIso(Interior(token)) then Date else Literal
    case IntegerText => Integer
    case FloatText => Float
    case Opening => LeftParentheses
    case Closing => RightParentheses
    case Identifier => Keyword(Upper(token))
    case Anything => Unknown
  }

  /** The classifier is the rule table read top down: the first rule whose test
      accepts the token decides its kind, and the last rule accepts every token. */
  lemma ClassifyByFirstRule(token: string, lx: Lexicon, i: nat)
    requires |token| > 0 && i < |RULES|
    requires Applies(RULES[i], token, lx)
    requires forall j :: 0 <= j < i ==> !Applies(RULES[j], token, lx)
    ensures Classify(token, lx) == Ok(Outcome(RULES[i], token, lx))
    ensures Applies(RULES[|RULES| - 1], token, lx)
  {
    var u := Upper(token);
    if i == 0 {
    } else if i == 1 {
      assert !Applies(RULES[0], token, lx);
    } else if i == 2 {
      assert !Applies(RULES[0], token, lx) && !Applies(RULES[1], token, lx);
    } else if i == 3 {
      assert !Applies(RULES[0], token, lx) && !Applies(RULES[1], token, lx) && !Applies(RULES[2], token, lx);
    } else {
      assert !Wrapped(token, '`') && token != "*" && u !in lx.functions && u !in OperatorNames() by {
        assert !Applies(RULES[0], token, lx) && !Applies(RULES[1], token, lx);
        assert !Applies(RULES[2], token, lx) && !Applies(RULES[3], token, lx);
      }
      ByLaterRule(token, lx, i);
    }
  }

  /** Rules 4 to 7, once the first four have declined. */
  lemma ByLaterRule(token: string, lx: Lexicon, i: nat)
    requires |token| > 0 && 4 <= i < |RULES|
    requires !Wrapped(token, '`') && token != "*" && Upper(token) !in lx.functions && Upper(token) !in OperatorNames()
    requires Applies(RULES[i], token, lx)
    requires forall j :: 4 <= j < i ==> !Applies(RULES[j], token, lx)
    ensures Classify(token, lx) == Ok(Outcome(RULES[i], token, lx))
  {
    var u := Upper(token);
    if i == 4 {
    } else if i == 5 {
      assert !Applies(RULES[4], token, lx);
    } else if i == 6 {
      assert !Applies(RULES[4], token, lx) && !Applies(RULES[5], token, lx);
    } else if i == 7 {
      assert !Applies(RULES[4], token, lx) && !Applies(RULES[5], token, lx) && !Applies(RULES[6], token, lx);
    } else {
      assert u !in lx.aggregators && !Wrapped(token, '"') && !Wrapped(token, '\'') && !lx.isInt(token) && !lx.isFloat(token) by {
        assert !Applies(RULES[4], token, lx) && !Applies(RULES[5], token, lx);
        assert !Applies(RULES[6], token, lx) && !Applies(RULES[7], token, lx);
      }
      ByLastRule(token, lx, i);
    }
  }

  /** Rules 8 to 11, once the first eight have declined. */
  lemma ByLastRule(token: string, lx: Lexicon, i: nat)
    requires |token| > 0 && 8 <= i < |RULES|
    requires !Wrapped(token, '`') && token != "*" && Upper(token) !in lx.functions && Upper(token) !in OperatorNames()
    requires Upper(token) !in lx.aggregators && !Wrapped(token, '"') && !Wrapped(token, '\'')
    requires !lx.isInt(token) && !lx.isFloat(token)
    requires Applies(RULES[i], token, lx)
    requires forall j :: 8 <= j < i ==> !Applies(RULES[j], token, lx)
    ensures Classify(token, lx) == Ok(Outcome(RULES[i], token, lx))
  {
    if i > 8 { assert !Applies(RULES[8], token, lx); }
    if i > 9 { assert !Applies(RULES[9], token, lx); }
    if i > 10 { assert !Applies(RULES[10], token, lx); }
  }

  /** Identifier-shaped tokens that no earlier rule claims are keywords matched
      without regard to case, and otherwise variables. */
  lemma IdentifierKinds(token: string, lx: Lexicon)
    requires |token| > 0 && IdentifierStart(token[0], lx)
    requires Upper(token) !in lx.functions && Upper(token) !in OperatorNames() && Upper(token) !in lx.aggregators
    requires !lx.isInt(token) && !lx.isFloat(token)
    ensures Classify(token, lx) == Ok(Keyword(Upper(token)))
    ensures Classify(token, lx) == Ok(Boolean) <==> Upper(token) in {"TRUE", "FALSE"}
    ensures Classify(token, lx) == Ok(Null) <==> Upper(token) in {"NULL", "NONE"}
  {
  }

  /** Two spellings of the same identifier that differ only in letter case get
      the same kind. */
  lemma IdentifiersIgnoreCase(a: string, b: string, lx: Lexicon)
    requires |a| > 0 && |b| > 0 && Upper(a) == Upper(b)
    requires IdentifierStart(a[0], lx) && IdentifierStart(b[0], lx)
    requires !lx.isInt(a) && !lx.isFloat(a) && !lx.isInt(b) && !lx.isFloat(b)
    ensures Classify(a, lx) == Classify(b, lx)
  {
  }

  /** A token in double or single quotes that names no function, operator or
      aggregator is a date when its interior parses as ISO 8601, and a string
      literal otherwise. */
  lemma QuotedKinds(token: string, lx: Lexicon)
    requires Wrapped(token, '"') || Wrapped(token, '\'')
    requires Upper(token) !in lx.functions && Upper(token) !in OperatorNames() && Upper(token) !in lx.aggregators
    ensures Classify(token, lx) == Ok(if lx.parseIso(Interior(token)) then Date else Literal)
  {
  }

  // ---------------------------------------------------------------------------
  // Repairing quoted literals

  predicate IsQuote(c: char) {
    c == '"' || c == '\'' || c == '`'
  }

  /** The repair pass's state: the literal collected so far and the quote that
      will close it (None while no literal is open). */
  datatype Scan = Scan(builder: string, looking: Option<char>)

  const IDLE := Scan("", None)

  /** Which branch of the repair loop a fragment takes. */
  datatype Branch = Skip | Plain | Whole | Close | Open | Extend | Stuck

  function Case(token: string, looking: Option<char>): Branch {
    var st := Strip(token);
    if |st| == 0 then Skip
    else if looking.None? && !IsQuote(st[0]) then Plain
    else if IsQuote(st[0]) && st[|st| - 1] == st[0] && |st| > 1 then Whole
    else if looking.Some? && st[|st| - 1] == looking.value then Close
    else if IsQuote(st[0]) && (st[|st| - 1] != st[0] || |st| == 1) then Open
    else if looking.Some? then Extend
    else Stuck
  }

  /** The branch that raises TokenError is never taken: every fragment that is
      neither blank nor plain starts with a quote or arrives while a literal is
      open, and each of those cases has a branch of its own. */
  lemma NeverStuck(token: string, looking: Option<char>)
    ensures Case(token, looking) != Stuck
  {
  }

  /** One iteration of `_fix_special_chars`: the next state and what it yields. */
  function Step(s: Scan, token: string): (r: Result<(Scan, seq<string>)>)
    ensures r.Ok? <==> Case(token, s.looking) != Stuck
  {
    match Case(token, s.looking)
    case Skip => Ok((s, []))
    case Plain => Ok((s, [token]))
    case Whole => Ok((s, [token]))
    case Close => Ok((IDLE, [s.builder + token]))
    case Open => Ok((Scan(token, Some(Strip(token)[0])), []))
    case Extend => Ok((Scan(s.builder + token, s.looking), []))
    case Stuck => Err(TokenError)
  }

  /** `list(_fix_special_chars(fragments))`, continuing from state `s`. A literal
      still open when the fragments run out is never yielded. */
  function FixQuotes(s: Scan, frags: seq<string>): (r: Result<seq<string>>)
    decreases |frags|
  {
    if |frags| == 0 then Ok([])
    else
      var step :- Step(s, frags[0]);
      var rest :- FixQuotes(step.0, frags[1..]);
      Ok(step.1 + rest)
  }

  /** The repair pass never raises TokenError, and everything it yields holds
      some non-whitespace character. */
  lemma {:induction false} FixQuotesOk(s: Scan, frags: seq<string>)
    ensures FixQuotes(s, frags).Ok?
    ensures forall i :: 0 <= i < |FixQuotes(s, frags).value| ==> NonBlank(FixQuotes(s, frags).value[i])
    decreases |frags|
  {
    if |frags| > 0 {
      NeverStuck(frags[0], s.looking);
      var step := Step(s, frags[0]).value;
      FixQuotesOk(step.0, frags[1..]);
      if Case(frags[0], s.looking) == Close {
        NonBlankAppend(s.builder, frags[0]);
      }
    }
  }

  /** A fragment met while no literal is open that does not start a quote. */
  predicate Unquoted(f: string) {
    var st := Strip(f);
    |st| == 0 || !IsQuote(st[0])
  }

  /** Without quotes the repair pass only drops the blank fragments. */
  lemma {:induction false} NoQuotesPassThrough(frags: seq<string>)
    requires forall i :: 0 <= i < |frags| ==> Unquoted(frags[i])
    ensures FixQuotes(IDLE, frags) == Ok(Filter(frags, NonBlank))
    decreases |frags|
  {
    if |frags| > 0 {
      var f := frags[0];
      NoQuotesPassThrough(frags[1..]);
      var out := if NonBlank(f) then [f] else [];
      assert Step(IDLE, f) == Ok((IDLE, out));
      assert Filter(frags, NonBlank) == out + Filter(frags[1..], NonBlank);
    }
  }

  /** A fragment that opens a literal closed by `q`: stripped, it starts with
      `q` and does not already end with it (or is the quote alone). */
  predicate Opens(f: string, q: char) {
    var st := Strip(f);
    |st| > 0 && IsQuote(q) && st[0] == q && (st[|st| - 1] != q || |st| == 1)
  }

  /** A fragment inside a literal closed by `q` that neither closes it nor
      starts with a quote of its own. */
  predicate Inside(f: string, q: char) {
    var st := Strip(f);
    |st| == 0 || (!IsQuote(st[0]) && st[|st| - 1] != q)
  }

  /** A fragment that closes a literal closed by `q` and is not itself a whole
      quoted literal. */
  predicate Closes(f: string, q: char) {
    var st := Strip(f);
    |st| > 0 && st[|st| - 1] == q && !(IsQuote(st[0]) && st[0] == st[|st| - 1] && |st| > 1)
  }

  /** The fragments that are not blank, concatenated. */
  function Joined(ms: seq<string>): string
    decreases |ms|
  {
    if |ms| == 0 then [] else (if NonBlank(ms[0]) then ms[0] else []) + Joined(ms[1..])
  }

  /** A step that yields nothing hands the rest of the fragments to the next state. */
  lemma SilentStep(s: Scan, frags: seq<string>)
    requires |frags| > 0 && Step(s, frags[0]).Ok? && Step(s, frags[0]).value.1 == []
    ensures FixQuotes(s, frags) == FixQuotes(Step(s, frags[0]).value.0, frags[1..])
  {
    var r := FixQuotes(Step(s, frags[0]).value.0, frags[1..]);
    if r.Ok? {
      assert [] + r.value == r.value;
    }
  }

  /** While a literal is open, the inside fragments are appended raw and
      nothing is yielded; blank ones are dropped. */
  lemma {:induction false} Collecting(b: string, q: char, ms: seq<string>, rest: seq<string>)
    requires forall i :: 0 <= i < |ms| ==> Inside(ms[i], q)
    ensures FixQuotes(Scan(b, Some(q)), ms + rest) == FixQuotes(Scan(b + Joined(ms), Some(q)), rest)
    decreases |ms|
  {
    if |ms| == 0 {
      assert ms + rest == rest;
      assert b + Joined(ms) == b;
    } else {
      var m := ms[0];
      var b' := if NonBlank(m) then b + m else b;
      CollectOne(b, q, ms, rest);
      Collecting(b', q, ms[1..], rest);
      JoinedCons(b, ms);
    }
  }

  lemma CollectOne(b: string, q: char, ms: seq<string>, rest: seq<string>)
    requires |ms| > 0 && Inside(ms[0], q)
    ensures var b' := if NonBlank(ms[0]) then b + ms[0] else b;
      FixQuotes(Scan(b, Some(q)), ms + rest) == FixQuotes(Scan(b', Some(q)), ms[1..] + rest)
  {
    assert (ms + rest)[1..] == ms[1..] + rest;
    StepInside(b, q, ms[0]);
    SilentStep(Scan(b, Some(q)), ms + rest);
  }

  lemma JoinedCons(b: string, ms: seq<string>)
    requires |ms| > 0
    ensures (if NonBlank(ms[0]) then b + ms[0] else b) + Joined(ms[1..]) == b + Joined(ms)
  {
    var m, j := ms[0], Joined(ms[1..]);
    if NonBlank(m) {
      assert Joined(ms) == m + j;
      assert b + m + j == b + (m + j);
    } else {
      assert Joined(ms) == [] + j == j;
    }
  }

  lemma StepInside(b: string, q: char, m: string)
    requires Inside(m, q)
    ensures Step(Scan(b, Some(q)), m) == Ok((Scan(if NonBlank(m) then b + m else b, Some(q)), []))
  {
  }

  /** An opening fragment, inside fragments and a closing fragment are yielded
      as one literal: the raw fragments concatenated, without the blank ones. */
  lemma LiteralAssembled(o: string, q: char, ms: seq<string>, c: string, rest: seq<string>)
    requires Opens(o, q) && Closes(c, q)
    requires forall i :: 0 <= i < |ms| ==> Inside(ms[i], q)
    ensures FixQuotes(IDLE, [o] + ms + [c] + rest).Ok? && FixQuotes(IDLE, rest).Ok?
    ensures FixQuotes(IDLE, [o] + ms + [c] + rest).value == [o + Joined(ms) + c] + FixQuotes(IDLE, rest).value
  {
    var all := [o] + ms + [c] + rest;
    assert all == [o] + (ms + ([c] + rest));
    EnterLiteral(o, q, ms + ([c] + rest));
    Collecting(o, q, ms, [c] + rest);
    LeaveLiteral(o + Joined(ms), q, c, rest);
  }

  /** An opening fragment starts a literal and yields nothing. */
  lemma EnterLiteral(o: string, q: char, tail: seq<string>)
    requires Opens(o, q)
    ensures FixQuotes(IDLE, [o] + tail) == FixQuotes(Scan(o, Some(q)), tail)
  {
    StepOpens(o, q);
    SilentStep(IDLE, [o] + tail);
    assert ([o] + tail)[1..] == tail;
  }

  /** A closing fragment yields the literal collected so far, closed. */
  lemma LeaveLiteral(lit: string, q: char, c: string, rest: seq<string>)
    requires Closes(c, q)
    ensures FixQuotes(IDLE, rest).Ok?
    ensures FixQuotes(Scan(lit, Some(q)), [c] + rest) == Ok([lit + c] + FixQuotes(IDLE, rest).value)
  {
    FixQuotesOk(IDLE, rest);
    StepCloses(lit, q, c);
    assert ([c] + rest)[1..] == rest;
  }

  lemma StepOpens(o: string, q: char)
    requires Opens(o, q)
    ensures Step(IDLE, o) == Ok((Scan(o, Some(q)), []))
  {
  }

  lemma StepCloses(b: string, q: char, c: string)
    requires Closes(c, q)
    ensures Step(Scan(b, Some(q)), c) == Ok((IDLE, [b + c]))
  {
  }

  /** A literal still open at the end of the fragments is silently discarded. */
  lemma UnterminatedDropped(o: string, q: char, ms: seq<string>)
    requires Opens(o, q)
    requires forall i :: 0 <= i < |ms| ==> Inside(ms[i], q)
    ensures FixQuotes(IDLE, [o] + ms) == Ok([])
  {
    assert ([o] + ms)[1..] == ms + [];
    StepOpens(o, q);
    SilentStep(IDLE, [o] + ms);
    Collecting(o, q, ms, []);
  }

  /** The repair pass as evidently intended: once a literal is open, every
      fragment (blank, quoted or not) is part of it until one ends with its
      quote. */
  function StepCorrected(s: Scan, token: string): (Scan, seq<string>) {
    var st := Strip(token);
    match s.looking
    case None =>
      if |st| == 0 then (s, [])
      else if !IsQuote(st[0]) || (st[|st| - 1] == st[0] && |st| > 1) then (s, [token])
      else (Scan(token, Some(st[0])), [])
    case Some(q) =>
      if |st| > 0 && st[|st| - 1] == q then (IDLE, [s.builder + token])
      else (Scan(s.builder + token, s.looking), [])
  }

  function FixQuotesCorrected(s: Scan, frags: seq<string>): (r: seq<string>)
    decreases |frags|
  {
    if |frags| == 0 then []
    else
      var step := StepCorrected(s, frags[0]);
      step.1 + FixQuotesCorrected(step.0, frags[1..])
  }

  /** A fragment inside a literal closed by `q`, as the corrected pass sees it:
      anything that does not end with `q`. */
  predicate Within(f: string, q: char) {
    var st := Strip(f);
    |st| == 0 || st[|st| - 1] != q
  }

  lemma {:induction false} CollectingCorrected(b: string, q: char, ms: seq<string>, rest: seq<string>)
    requires forall i :: 0 <= i < |ms| ==> Within(ms[i], q)
    ensures FixQuotesCorrected(Scan(b, Some(q)), ms + rest) == FixQuotesCorrected(Scan(b + Flatten(ms), Some(q)), rest)
    decreases |ms|
  {
    if |ms| == 0 {
      assert ms + rest == rest;
      assert b + Flatten(ms) == b;
    } else {
      var m, tail := ms[0], ms[1..];
      CollectOneCorrected(b, q, ms, rest);
      WithinTail(ms, q);
      CollectingCorrected(b + m, q, tail, rest);
      FlattenCons(b, ms);
    }
  }

  lemma WithinTail(ms: seq<string>, q: char)
    requires |ms| > 0 && forall i :: 0 <= i < |ms| ==> Within(ms[i], q)
    ensures forall i :: 0 <= i < |ms| - 1 ==> Within(ms[1..][i], q)
  {
  }

  lemma CollectOneCorrected(b: string, q: char, ms: seq<string>, rest: seq<string>)
    requires |ms| > 0 && Within(ms[0], q)
    ensures FixQuotesCorrected(Scan(b, Some(q)), ms + rest) == FixQuotesCorrected(Scan(b + ms[0], Some(q)), ms[1..] + rest)
  {
    assert StepCorrected(Scan(b, Some(q)), ms[0]) == (Scan(b + ms[0], Some(q)), []);
    assert (ms + rest)[1..] == ms[1..] + rest;
  }

  /** The corrected pass yields a literal as every fragment from its opening
      quote to its closing quote, concatenated. */
  lemma LiteralAssembledCorrected(o: string, q: char, ms: seq<string>, c: string, rest: seq<string>)
    requires Opens(o, q)
    requires forall i :: 0 <= i < |ms| ==> Within(ms[i], q)
    requires NonBlank(c) && Strip(c)[|Strip(c)| - 1] == q
    ensures FixQuotesCorrected(IDLE, [o] + ms + [c] + rest) == [o + Flatten(ms) + c] + FixQuotesCorrected(IDLE, rest)
  {
    var all := [o] + ms + [c] + rest;
    assert all == [o] + (ms + ([c] + rest));
    EnterLiteralCorrected(o, q, ms + ([c] + rest));
    CollectingCorrected(o, q, ms, [c] + rest);
    LeaveLiteralCorrected(o + Flatten(ms), q, c, rest);
  }

  lemma EnterLiteralCorrected(o: string, q: char, tail: seq<string>)
    requires Opens(o, q)
    ensures FixQuotesCorrected(IDLE, [o] + tail) == FixQuotesCorrected(Scan(o, Some(q)), tail)
  {
    assert StepCorrected(IDLE, o) == (Scan(o, Some(q)), []);
    assert ([o] + tail)[1..] == tail;
  }

  lemma LeaveLiteralCorrected(lit: string, q: char, c: string, rest: seq<string>)
    requires NonBlank(c) && Strip(c)[|Strip(c)| - 1] == q
    ensures FixQuotesCorrected(Scan(lit, Some(q)), [c] + rest) == [lit + c] + FixQuotesCorrected(IDLE, rest)
  {
    assert StepCorrected(Scan(lit, Some(q)), c) == (IDLE, [lit + c]);
    assert ([c] + rest)[1..] == rest;
  }

  /** Where no fragment starts a quote the two passes agree. */
  lemma {:induction false} CorrectedAgreesWithoutQuotes(frags: seq<string>)
    requires forall i :: 0 <= i < |frags| ==> Unquoted(frags[i])
    ensures FixQuotes(IDLE, frags) == Ok(FixQuotesCorrected(IDLE, frags))
    decreases |frags|
  {
    if |frags| > 0 {
      CorrectedAgreesWithoutQuotes(frags[1..]);
    }
  }

  /** As written, a fully quoted fragment inside an open literal is yielded on
      its own, ahead of the literal it belongs to, which closes without it. */
  lemma QuotedFragmentEscapes(o: string, f: string, c: string, q: char)
    requires Opens(o, q) && Closes(c, q) && Wraps(f)
    ensures FixQuotes(IDLE, [o, f, c]) == Ok([f, o + c])
  {
    assert FixQuotes(Scan(o, Some(q)), [c]) == Ok([o + c]) by {
      StepCloses(o, q, c);
      assert [c][1..] == [];
      assert [o + c] + [] == [o + c];
    }
    assert FixQuotes(Scan(o, Some(q)), [f, c]) == Ok([f, o + c]) by {
      StepWhole(Scan(o, Some(q)), f);
      assert [f, c][1..] == [c];
      assert [f] + [o + c] == [f, o + c];
    }
    StepOpens(o, q);
    SilentStep(IDLE, [o, f, c]);
    assert [o, f, c][1..] == [f, c];
  }

  /** The corrected pass keeps a quoted fragment inside the literal around it. */
  lemma QuotedFragmentKept(o: string, f: string, c: string, q: char)
    requires Opens(o, q) && Closes(c, q) && Wraps(f) && Within(f, q)
    ensures FixQuotesCorrected(IDLE, [o, f, c]) == [o + f + c]
  {
    assert [o, f, c] == [o] + [f] + [c] + [];
    LiteralAssembledCorrected(o, q, [f], c, []);
    assert Flatten([f]) == f by {
      assert [f][1..] == [];
    }
    assert FixQuotesCorrected(IDLE, []) == [];
    assert FixQuotesCorrected(IDLE, [o, f, c]) == [o + Flatten([f]) + c] + [];
  }

  lemma StepWhole(s: Scan, f: string)
    requires Wraps(f)
    ensures Step(s, f) == Ok((s, [f]))
  {
  }

  /** A fragment that is, stripped, a whole quoted literal. */
  predicate Wraps(f: string) {
    var st := Strip(f);
    |st| > 1 && IsQuote(st[0]) && st[|st| - 1] == st[0]
  }

  /** The escape with plain fragments on both sides of the quoted one: they
      stay in the literal, the quoted fragment comes out first. */
  lemma QuotedFragmentEscapesBetween(o: string, l: string, f: string, r: string, c: string, q: char)
    requires Opens(o, q) && Closes(c, q) && Wraps(f)
    requires Inside(l, q) && Inside(r, q) && NonBlank(l) && NonBlank(r)
    ensures FixQuotes(IDLE, [o, l, f, r, c]) == Ok([f, o + l + r + c])
  {
    EscapeTail(o + l, f, r, c, q);
    CollectOne(o, q, [l], [f, r, c]);
    assert [l] + [f, r, c] == [l, f, r, c];
    assert [l][1..] + [f, r, c] == [f, r, c];
    EnterLiteral(o, q, [l, f, r, c]);
    assert [o] + [l, f, r, c] == [o, l, f, r, c];
  }

  /** Inside an open literal: a whole quoted fragment is yielded at once, a
      plain one is collected, and the closing fragment yields the literal. */
  lemma EscapeTail(b: string, f: string, r: string, c: string, q: char)
    requires Closes(c, q) && Wraps(f) && Inside(r, q) && NonBlank(r)
    ensures FixQuotes(Scan(b, Some(q)), [f, r, c]) == Ok([f, b + r + c])
  {
    var open := Scan(b, Some(q));
    assert FixQuotes(Scan(b + r, Some(q)), [c]) == Ok([b + r + c]) by {
      LeaveLiteral(b + r, q, c, []);
      assert [c] + [] == [c];
      assert FixQuotes(IDLE, []) == Ok([]);
      assert [b + r + c] + [] == [b + r + c];
    }
    assert FixQuotes(open, [r, c]) == FixQuotes(Scan(b + r, Some(q)), [c]) by {
      CollectOne(b, q, [r], [c]);
      assert [r] + [c] == [r, c];
      assert [r][1..] + [c] == [c];
    }
    StepWhole(open, f);
    assert [f, r, c][1..] == [r, c];
    assert [f] + [b + r + c] == [f, b + r + c];
  }

  /** The corrected pass keeps all three inner fragments in the literal. */
  lemma QuotedFragmentKeptBetween(o: string, l: string, f: string, r: string, c: string, q: char)
    requires Opens(o, q) && Closes(c, q) && Within(l, q) && Within(f, q) && Within(r, q)
    ensures FixQuotesCorrected(IDLE, [o, l, f, r, c]) == [o + l + f + r + c]
  {
    LiteralAssembledCorrected(o, q, [l, f, r], c, []);
    assert [o] + [l, f, r] + [c] + [] == [o, l, f, r, c];
    assert Flatten([l, f, r]) == l + f + r by {
      FlattenSnoc([l, f], r);
      FlattenSnoc([l], f);
      FlattenSnoc([], l);
      assert [l, f] + [r] == [l, f, r];
      assert [l] + [f] == [l, f];
      assert [] + [l] == [l];
    }
    assert FixQuotesCorrected(IDLE, []) == [];
    assert o + (l + f + r) + c == o + l + f + r + c;
  }

  /** An instance: the splitter cuts `"a ('x') b"` at `(` and at `)`, so the
      quoted `'x'` arrives as a fragment of its own while the double-quoted
      literal is open. */
  lemma QuotedFragmentEscapesExample()
    ensures FixQuotes(IDLE, ["\"a ", "(", "'x'", ")", " b\""]) == Ok(["'x'", "\"a () b\""])
    ensures FixQuotesCorrected(IDLE, ["\"a ", "(", "'x'", ")", " b\""]) == ["\"a ('x') b\""]
  {
    ExampleFragments();
    QuotedFragmentEscapesBetween("\"a ", "(", "'x'", ")", " b\"", '"');
    QuotedFragmentKeptBetween("\"a ", "(", "'x'", ")", " b\"", '"');
    assert "\"a " + "(" + ")" + " b\"" == "\"a () b\"";
    assert "\"a " + "(" + "'x'" + ")" + " b\"" == "\"a ('x') b\"";
  }

  /** The fragments of the example above: an opening, the two parentheses, a
      whole quoted literal, and a closing. */
  lemma ExampleFragments()
    ensures Opens("\"a ", '"') && Wraps("'x'") && Within("'x'", '"') && Closes(" b\"", '"')
    ensures Inside("(", '"') && Inside(")", '"') && NonBlank("(") && NonBlank(")")
    ensures Within("(", '"') && Within(")", '"')
  {
    StripsOf("\"a ", 0, 1, "\"a");
    StripsOf("'x'", 0, 0, "'x'");
    StripsOf(" b\"", 1, 0, "b\"");
    StripsOf("(", 0, 0, "(");
    StripsOf(")", 0, 0, ")");
  }

  /** `s.strip()` is `r` when `s` has `lead` leading and `trail` trailing
      whitespace characters around it. */
  lemma StripsOf(s: string, lead: nat, trail: nat, r: string)
    requires lead + trail <= |s| && r == s[lead..|s| - trail]
    requires forall i :: 0 <= i < lead ==> IsSpace(s[i])
    requires forall i :: |s| - trail <= i < |s| ==> IsSpace(s[i])
    requires |r| > 0 && !IsSpace(r[0]) && !IsSpace(r[|r| - 1])
    ensures Strip(s) == r
  {
    LeadIs(s, lead);
    TrailIs(s, trail);
  }

  lemma {:induction false} LeadIs(s: string, n: nat)
    requires n < |s| && !IsSpace(s[n])
    requires forall i :: 0 <= i < n ==> IsSpace(s[i])
    ensures Lead(s) == n
    decreases n
  {
    if n > 0 {
      LeadIs(s[1..], n - 1);
    }
  }

  lemma {:induction false} TrailIs(s: string, n: nat)
    requires n < |s| && !IsSpace(s[|s| - 1 - n])
    requires forall i :: |s| - n <= i < |s| ==> IsSpace(s[i])
    ensures Trail(s) == n
    decreases n
  {
    if n > 0 {
      TrailIs(s[..|s| - 1], n - 1);
    }
  }

  /** As written, a blank fragment between two split points inside a literal is
      lost. */
  lemma BlankInsideLiteralDropped(o: string, x: string, w: string, y: string, c: string, q: char)
    requires Opens(o, q) && Closes(c, q)
    requires Inside(x, q) && Inside(y, q) && NonBlank(x) && NonBlank(y) && !NonBlank(w)
    ensures FixQuotes(IDLE, [o, x, w, y, c]) == Ok([o + x + y + c])
  {
    var ms := [x, w, y];
    assert [o, x, w, y, c] == [o] + ms + [c] + [];
    assert Inside(w, q);
    LiteralAssembled(o, q, ms, c, []);
    JoinedThree(x, w, y);
    assert FixQuotes(IDLE, []) == Ok([]);
    var r := FixQuotes(IDLE, [o, x, w, y, c]);
    assert r.Ok?;
    assert r.value == [o + x + y + c] by {
      assert r.value == [o + Joined(ms) + c] + [];
      assert o + (x + y) + c == o + x + y + c;
    }
  }

  lemma JoinedThree(x: string, w: string, y: string)
    requires NonBlank(x) && NonBlank(y) && !NonBlank(w)
    ensures Joined([x, w, y]) == x + y
  {
    assert Joined([y]) == y by {
      assert [y][1..] == [];
    }
    assert Joined([w, y]) == y by {
      assert [w, y][1..] == [y];
    }
    assert [x, w, y][1..] == [w, y];
  }

  /** The corrected pass keeps the blank fragment. */
  lemma BlankInsideLiteralKept(o: string, x: string, w: string, y: string, c: string, q: char)
    requires Opens(o, q) && Closes(c, q)
    requires Within(x, q) && Within(y, q) && !NonBlank(w)
    ensures FixQuotesCorrected(IDLE, [o, x, w, y, c]) == [o + x + w + y + c]
  {
    var ms := [x, w, y];
    assert [o, x, w, y, c] == [o] + ms + [c] + [];
    assert Within(w, q);
    LiteralAssembledCorrected(o, q, ms, c, []);
    assert Flatten(ms) == x + (w + y) by {
      assert Flatten([y]) == y by {
        assert [y][1..] == [];
      }
      assert Flatten([w, y]) == w + y by {
        assert [w, y][1..] == [y];
      }
      assert ms[1..] == [w, y];
    }
    assert FixQuotesCorrected(IDLE, []) == [];
    assert FixQuotesCorrected(IDLE, [o, x, w, y, c]) == [o + Flatten(ms) + c] + [];
    assert o + (x + (w + y)) + c == o + x + w + y + c;
  }

  /** An instance: the literal `'( *'`, split at `(` and at `*`. */
  lemma BlankInsideLiteralDroppedExample()
    ensures FixQuotes(IDLE, ["'", "(", " ", "*", "'"]) == Ok(["'(*'"])
    ensures FixQuotesCorrected(IDLE, ["'", "(", " ", "*", "'"]) == ["'( *'"]
  {
    assert "'" + "(" + "*" + "'" == "'(*'";
    assert "'" + "(" + " " + "*" + "'" == "'( *'";
    BlankExampleFragments();
    BlankInsideLiteralDropped("'", "(", " ", "*", "'", '\'');
    BlankInsideLiteralKept("'", "(", " ", "*", "'", '\'');
  }

  /** The five fragments of the example above, one by one. */
  lemma BlankExampleFragments()
    ensures Opens("'", '\'') && Closes("'", '\'') && !NonBlank(" ")
    ensures Inside("(", '\'') && Inside("*", '\'') && NonBlank("(") && NonBlank("*")
    ensures Within("(", '\'') && Within("*", '\'')
  {
    StripsOf("'", 0, 0, "'");
    StripsOf("(", 0, 0, "(");
    StripsOf("*", 0, 0, "*");
    assert Strip(" ") == "" by {
      assert Lead(" ") == 1;
    }
  }

  // ---------------------------------------------------------------------------
  // The tokenizer and its cursor

  /** A `Tokenizer`: the splitter's fragments of the expression, the tokens and
      their kinds once `tokenize` has run (None before), and the cursor. */
  datatype Tokenizer = Tokenizer(fragments: seq<string>, tokens: Option<seq<string>>, types: Option<seq<Kind>>, i: nat)

  function New(fragments: seq<string>): (t: Tokenizer)
    ensures t.tokens.None? && t.types.None? && t.i == 0 && t.fragments == fragments
  {
    Tokenizer(fragments, None, None, 0)
  }

  /** `tokenize()`: repair the fragments, strip them, drop the empty ones, and
      classify each token. The cursor is left where it was. The repair pass
      cannot raise TokenError (`FixQuotesOk`), so neither can this. */
  function Tokenize(t: Tokenizer, lx: Lexicon): (r: Tokenizer)
    ensures r.fragments == t.fragments && r.i == t.i
    ensures r.tokens.Some? && r.types.Some?
    ensures var ts := r.tokens.value;
      forall k :: 0 <= k < |ts| ==> |ts[k]| > 0 && Strip(ts[k]) == ts[k]
    ensures var ts, ks := r.tokens.value, r.types.value;
      |ks| == |ts| && forall k :: 0 <= k < |ts| ==> Classify(ts[k], lx) == Ok(ks[k])
  {
    FixQuotesOk(IDLE, t.fragments);
    var fixed := FixQuotes(IDLE, t.fragments).value;
    var kept := Filter(fixed, NonBlank);
    var tokens := Image(kept, Strip);
    assert forall k :: 0 <= k < |tokens| ==> |tokens[k]| > 0 && Strip(tokens[k]) == tokens[k] by {
      forall k | 0 <= k < |tokens|
        ensures |tokens[k]| > 0 && Strip(tokens[k]) == tokens[k]
      {
        assert kept[k] in kept;
        StripIdempotent(kept[k]);
      }
    }
    var types := seq(|tokens|, k requires 0 <= k < |tokens| => Classify(tokens[k], lx).value);
    t.(tokens := Some(tokens), types := Some(types))
  }

  /** The tokens are exactly the repaired fragments, stripped: the repair pass
      leaves no blank fragment for `tokenize` to drop. */
  lemma TokensAreRepairedFragments(t: Tokenizer, lx: Lexicon)
    ensures FixQuotes(IDLE, t.fragments).Ok?
    ensures Tokenize(t, lx).tokens.value == Image(FixQuotes(IDLE, t.fragments).value, Strip)
  {
    FixQuotesOk(IDLE, t.fragments);
    var fixed := FixQuotes(IDLE, t.fragments).value;
    FilterAll(fixed, NonBlank);
  }

  /** Without quotes in the expression, the tokens are the fragments that are
      not blank, stripped, in order. */
  lemma TokensWithoutQuotes(t: Tokenizer, lx: Lexicon)
    requires forall i :: 0 <= i < |t.fragments| ==> Unquoted(t.fragments[i])
    ensures Tokenize(t, lx).tokens.value == Image(Filter(t.fragments, NonBlank), Strip)
  {
    TokensAreRepairedFragments(t, lx);
    NoQuotesPassThrough(t.fragments);
  }

  /** `peek()`: the token under the cursor. Before `tokenize` the token list is
      None, which cannot be indexed. */
  function Peek(t: Tokenizer): (r: Result<string>)
    ensures t.tokens.None? ==> r == Err(TypeError)
    ensures t.tokens.Some? ==> (r.Ok? <==> t.i < |t.tokens.value|)
    ensures r.Ok? ==> r.value == t.tokens.value[t.i]
    ensures r.Err? && t.tokens.Some? ==> r.error == IndexError
  {
    match t.tokens
    case None => Err(TypeError)
    case Some(ts) => if t.i < |ts| then Ok(ts[t.i]) else Err(IndexError)
  }

  /** The cursor after a call, and what the call returned or raised. */
  datatype Moved<T> = Moved(after: Tokenizer, result: Result<T>)

  /** `next()`: advance the cursor, then return the token it passed over. The
      cursor advances even when the indexing then fails. */
  function Next(t: Tokenizer): (m: Moved<string>)
    ensures m.after == t.(i := t.i + 1)
    ensures t.tokens.Some? ==> (m.result.Ok? <==> t.i < |t.tokens.value|)
    ensures m.result.Ok? ==> t.tokens.Some? && m.result.value == t.tokens.value[t.i]
  {
    var after := t.(i := t.i + 1);
    match t.tokens
    case None => Moved(after, Err(TypeError))
    case Some(ts) => Moved(after, if after.i - 1 < |ts| then Ok(ts[after.i - 1]) else Err(IndexError))
  }

  /** `has_next()` */
  function HasNext(t: Tokenizer): (r: Result<bool>)
    ensures r.Ok? <==> t.tokens.Some?
    ensures r.Ok? ==> (r.value <==> t.i < |t.tokens.value|)
  {
    match t.tokens
    case None => Err(TypeError)
    case Some(ts) => Ok(t.i < |ts|)
  }

  /** `next_token_type()`: the kind of the token under the cursor. */
  function NextTokenType(t: Tokenizer): (r: Result<Kind>)
    ensures t.types.None? ==> r == Err(TypeError)
    ensures t.types.Some? ==> (r.Ok? <==> t.i < |t.types.value|)
    ensures r.Ok? ==> r.value == t.types.value[t.i]
  {
    match t.types
    case None => Err(TypeError)
    case Some(ks) => if t.i < |ks| then Ok(ks[t.i]) else Err(IndexError)
  }

  /** `peek` does not move, `next` returns what `peek` would have and moves one
      on, and `has_next` holds exactly when `peek` succeeds. After `tokenize`,
      the kind under the cursor is the kind of the token under it. */
  lemma CursorLaws(t: Tokenizer, lx: Lexicon)
    ensures Next(t).result == Peek(t) && Next(t).after.i == t.i + 1
    ensures t.tokens.Some? ==> (HasNext(t) == Ok(true) <==> Peek(t).Ok?)
    ensures var u := Tokenize(t, lx);
      Peek(u).Ok? ==> NextTokenType(u) == Classify(Peek(u).value, lx)
    ensures var u := Tokenize(t, lx);
      HasNext(u).Ok? && (HasNext(u).value <==> Peek(u).Ok?)
  {
  }

  /** `n` calls of `next()` from the cursor: the cursor after them and what each returned. */
  function Walk(t: Tokenizer, n: nat): (w: (Tokenizer, seq<Result<string>>))
    decreases n
  {
    if n == 0 then (t, [])
    else
      var m := Next(t);
      var w := Walk(m.after, n - 1);
      (w.0, [m.result] + w.1)
  }

  /** Calling `next()` `n` times reads the next `n` tokens in order and leaves
      the cursor `n` further on, with `has_next` false exactly at the end. */
  lemma {:induction false} WalkReadsInOrder(t: Tokenizer, n: nat)
    requires t.tokens.Some? && t.i + n <= |t.tokens.value|
    ensures Walk(t, n).0 == t.(i := t.i + n)
    ensures |Walk(t, n).1| == n
    ensures forall k :: 0 <= k < n ==> Walk(t, n).1[k] == Ok(t.tokens.value[t.i + k])
    ensures HasNext(Walk(t, n).0) == Ok(t.i + n < |t.tokens.value|)
    decreases n
  {
    if n > 0 {
      var m := Next(t);
      WalkReadsInOrder(m.after, n - 1);
      var w := Walk(m.after, n - 1);
      assert Walk(t, n).1 == [m.result] + w.1;
      forall k | 0 <= k < n
        ensures Walk(t, n).1[k] == Ok(t.tokens.value[t.i + k])
      {
        if k > 0 {
          assert Walk(t, n).1[k] == w.1[k - 1];
        }
      }
    }
  }
}
