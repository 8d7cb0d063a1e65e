/** The pattern front end of regex_gen.rs: the syntax tree, a recursive-descent
    parser that walks a peekable character cursor, and the printer.

    The parser is modelled twice, as in the source's own terms:
    - pure step functions (`DispatchStep`, `ClassStep`, `GroupStep`, ...) that
      map the unread input to a result and the input left unread, and
    - the class `RegexParser`, whose methods advance the cursor `input` in
      place and are proved to agree with the step functions.
    The lemmas at the end are about the step functions. */
module RegexGen {

  datatype RegexUnit =
    | Character(c: char)
    | CharacterRange(lo: char, hi: char)
    | Characters(units: seq<RegexUnit>)
    | Items(items: seq<RegexItem>)

  datatype RegexAnnotation =
    | StandAlone
    | OneOrZero    // '?'
    | GreaterZero  // '+'
    | AnyOccurs    // '*'

  datatype RegexItem = RegexItem(unit: RegexUnit, annotation: RegexAnnotation)

  /** The parser's result type; the source's error type carries no data. */
  datatype ParseResult<T> = Ok(value: T) | Err

  /** The outcome of one parsing step together with the input it leaves unread. */
  datatype Step<T> = Step(result: ParseResult<T>, rest: seq<char>)

  /** `rest` is what is left of `s` after reading some prefix of it. */
  predicate IsSuffix(rest: seq<char>, s: seq<char>)
  {
    |rest| <= |s| && rest == s[|s| - |rest|..]
  }

  predicate IsAnnotationChar(c: char)
  {
    c == '?' || c == '+' || c == '*'
  }

  /** The input does not begin with a quantifier character. */
  predicate NoAnnotationAhead(s: seq<char>)
  {
    |s| == 0 || !IsAnnotationChar(s[0])
  }

  // ---------------------------------------------------------------------------
  // Printing (ToString for RegexUnit and RegexItem)
  // ---------------------------------------------------------------------------

  function AnnotationText(a: RegexAnnotation): string
  {
    match a
    case StandAlone => ""
    case OneOrZero => "?"
    case GreaterZero => "+"
    case AnyOccurs => "*"
  }

  function UnitText(u: RegexUnit): string
  {
    match u
    case Character(c) => [c]
    case CharacterRange(lo, hi) => [lo, '-', hi]
    case Characters(units) => "[" + UnitsText(units) + "]"
    case Items(items) => "(" + ItemsText(items) + ")"
  }

  function UnitsText(units: seq<RegexUnit>): string
  {
    if units == [] then "" else UnitText(units[0]) + UnitsText(units[1..])
  }

  function ItemText(item: RegexItem): string
  {
    UnitText(item.unit) + AnnotationText(item.annotation)
  }

  function ItemsText(items: seq<RegexItem>): string
  {
    if items == [] then "" else ItemText(items[0]) + ItemsText(items[1..])
  }

  lemma {:induction false} UnitsTextSnoc(units: seq<RegexUnit>, u: RegexUnit)
    ensures UnitsText(units + [u]) == UnitsText(units) + UnitText(u)
  {
    if units != [] {
      assert (units + [u])[1..] == units[1..] + [u];
      UnitsTextSnoc(units[1..], u);
    }
  }

  lemma {:induction false} ItemsTextSnoc(items: seq<RegexItem>, it: RegexItem)
    ensures ItemsText(items + [it]) == ItemsText(items) + ItemText(it)
  {
    if items != [] {
      assert (items + [it])[1..] == items[1..] + [it];
      ItemsTextSnoc(items[1..], it);
    }
  }

  /** `RegexUnit::to_string`: pushes characters onto a growing string. */
  method UnitToString(u: RegexUnit) returns (r: string)
    ensures r == UnitText(u)
    decreases u, 1
  {
    match u {
      case Character(c) =>
        r := [c];
      case CharacterRange(lo, hi) =>
        r := [lo];
        r := r + ['-'];
        r := r + [hi];
      case Characters(units) =>
        r := "[";
        for i := 0 to |units|
          invariant r == "[" + UnitsText(units[..i])
        {
          var t := UnitToString(units[i]);
          assert units[..i + 1] == units[..i] + [units[i]];
          UnitsTextSnoc(units[..i], units[i]);
          r := r + t;
        }
        assert units[..|units|] == units;
        r := r + "]";
      case Items(items) =>
        r := "(";
        for i := 0 to |items|
          invariant r == "(" + ItemsText(items[..i])
        {
          var t := ItemToString(items[i]);
          ItemsTextSnoc(items[..i], items[i]);
          assert items[..i + 1] == items[..i] + [items[i]];
          r := r + t;
        }
        assert items[..|items|] == items;
        r := r + ")";
    }
  }

  /** `RegexItem::to_string`: the unit followed by its quantifier, if any. */
  method ItemToString(item: RegexItem) returns (r: string)
    ensures r == ItemText(item)
    decreases item, 0
  {
    r := UnitToString(item.unit);
    match item.annotation {
      case AnyOccurs => r := r + ['*'];
      case OneOrZero => r := r + ['?'];
      case GreaterZero => r := r + ['+'];
      case StandAlone =>
    }
  }

  // ---------------------------------------------------------------------------
  // Parsing, as functions of the unread input
  // ---------------------------------------------------------------------------

  /** The quantifier at the head of the input, if there is one. */
  function AnnotationOf(s: seq<char>): RegexAnnotation
  {
    if |s| > 0 && s[0] == '?' then OneOrZero
    else if |s| > 0 && s[0] == '+' then GreaterZero
    else if |s| > 0 && s[0] == '*' then AnyOccurs
    else StandAlone
  }

  /** The input left after `parse_annotation`. */
  function AfterAnnotation(s: seq<char>): (rest: seq<char>)
    ensures |rest| <= |s|
  {
    if AnnotationOf(s) == StandAlone then s else s[1..]
  }

  /** A plain character followed by its quantifier (`parse_character`). */
  function CharacterStep(s: seq<char>): (r: Step<RegexItem>)
    requires |s| > 0
    ensures |r.rest| < |s|
  {
    Step(Ok(RegexItem(Character(s[0]), AnnotationOf(s[1..]))), AfterAnnotation(s[1..]))
  }

  /** The upper bound of the one range each of 'a', 'A' and '0' may start. */
  function RangeEnd(lo: char): char
  {
    if lo == 'a' then 'z' else if lo == 'A' then 'Z' else '9'
  }

  predicate IsRangeStart(c: char)
  {
    c == 'a' || c == 'A' || c == '0'
  }

  /** One unit of a bracket expression, read from input whose head is not ']'. */
  function ClassUnitStep(t: seq<char>): (r: Step<RegexUnit>)
    requires |t| > 0 && t[0] != ']'
    ensures |r.rest| < |t|
    ensures r.result.Ok? ==> r.result.value.Character? || r.result.value.CharacterRange?
  {
    if t[0] == '\\' then
      if |t| > 1 && t[1] == 'd' then Step(Ok(CharacterRange('0', '9')), t[2..])
      else if |t| > 1 && (t[1] == '\\' || t[1] == '[' || t[1] == ']') then Step(Ok(Character(t[1])), t[2..])
      else Step(Err, t[1..])
    else if IsRangeStart(t[0]) && |t| > 1 && t[1] == '-' then
      if |t| > 2 && t[2] == RangeEnd(t[0]) then Step(Ok(CharacterRange(t[0], RangeEnd(t[0]))), t[3..])
      else Step(Err, if |t| > 2 then t[3..] else [])
    else Step(Ok(Character(t[0])), t[1..])
  }

  /** The loop of `parse_character_group`, with the units read so far in `acc`. */
  function ClassBody(t: seq<char>, acc: seq<RegexUnit>): (r: Step<RegexItem>)
    ensures |r.rest| <= |t|
    ensures r.result.Ok? ==> |r.rest| < |t| && r.result.value.unit.Characters?
    decreases |t|
  {
    if t == [] then Step(Err, t)
    else if t[0] == ']' then
      Step(Ok(RegexItem(Characters(acc), AnnotationOf(t[1..]))), AfterAnnotation(t[1..]))
    else
      var u := ClassUnitStep(t);
      match u.result
      case Err => Step(Err, u.rest)
      case Ok(unit) => ClassBody(u.rest, acc + [unit])
  }

  /** `parse_character_group`: '[', an optional leading '-', then the loop. */
  function ClassStep(s: seq<char>): (r: Step<RegexItem>)
    requires |s| > 0 && s[0] == '['
    ensures |r.rest| <= |s|
    ensures r.result.Ok? ==> |r.rest| < |s| && r.result.value.unit.Characters?
  {
    var t := s[1..];
    if |t| > 0 && t[0] == '-' then ClassBody(t[1..], [Character('-')]) else ClassBody(t, [])
  }

  /** `dispatch`: chooses the production by the next character. */
  function DispatchStep(s: seq<char>): (r: Step<RegexItem>)
    ensures |r.rest| <= |s|
    ensures r.result.Ok? ==> |r.rest| < |s|
    ensures s == [] ==> r.result.Err?
    decreases |s|, 1
  {
    if s == [] then Step(Err, s)
    else if s[0] == '[' then ClassStep(s)
    else if s[0] == '(' then GroupStep(s)
    else CharacterStep(s)
  }

  /** `parse_item_group`: skip the '(' and collect items up to ')'. */
  function GroupStep(s: seq<char>): (r: Step<RegexItem>)
    ensures |r.rest| <= |s|
    ensures r.result.Ok? ==> |r.rest| < |s| && r.result.value.unit.Items?
    decreases |s|, 0
  {
    if s == [] then Step(Err, s) else GroupBody(s[1..], [])
  }

  /** The loop of `parse_item_group`, with the items read so far in `acc`. */
  function GroupBody(t: seq<char>, acc: seq<RegexItem>): (r: Step<RegexItem>)
    ensures |r.rest| <= |t|
    ensures r.result.Ok? ==> |r.rest| < |t| && r.result.value.unit.Items?
    decreases |t|, 2
  {
    if t == [] then Step(Err, t)
    else if t[0] == ')' then
      Step(Ok(RegexItem(Items(acc), AnnotationOf(t[1..]))), AfterAnnotation(t[1..]))
    else
      var d := DispatchStep(t);
      match d.result
      case Err => Step(Err, d.rest)
      case Ok(item) => GroupBody(d.rest, acc + [item])
  }

  /** The loop of `parse`: dispatch until the first failure, keeping what was
      read; yields the items and the input left unread. */
  function TopItems(s: seq<char>, acc: seq<RegexItem>): (r: (seq<RegexItem>, seq<char>))
    ensures |r.1| <= |s|
    ensures |acc| <= |r.0| && r.0[..|acc|] == acc
    decreases |s|
  {
    var d := DispatchStep(s);
    match d.result
    case Err => (acc, d.rest)
    case Ok(item) => TopItems(d.rest, acc + [item])
  }

  /** `parse`: never fails; the pattern is one ungrouped, unquantified item list. */
  function ParsePattern(s: seq<char>): (r: ParseResult<RegexItem>)
    ensures r.Ok? && r.value.unit.Items? && r.value.annotation == StandAlone
  {
    Ok(RegexItem(Items(TopItems(s, []).0), StandAlone))
  }

  // ---------------------------------------------------------------------------
  // The parser object: a cursor over the pattern, advanced in place
  // ---------------------------------------------------------------------------

  class RegexParser {
    /** The characters not yet taken from the peekable iterator. */
    var input: seq<char>

    constructor (s: string)
      ensures input == s
    {
      input := s;
    }

    method Parse() returns (r: ParseResult<RegexItem>)
      modifies this
      ensures r == ParsePattern(old(input))
      ensures input == TopItems(old(input), []).1
    {
      var items: seq<RegexItem> := [];
      while true
        invariant TopItems(input, items) == TopItems(old(input), [])
        decreases |input|
      {
        ghost var before := input;
        var d := Dispatch();
        if d.Err? {
          assert TopItems(before, items) == (items, input);
          break;
        }
        items := items + [d.value];
      }
      r := Ok(RegexItem(Items(items), StandAlone));
    }

    method Dispatch() returns (r: ParseResult<RegexItem>)
      modifies this
      ensures Step(r, input) == DispatchStep(old(input))
      decreases |input|, 1
    {
      if |input| == 0 {
        r := Err;
        return;
      }
      var c := input[0];
      if c == '[' {
        r := ParseCharacterGroup();
      } else if c == '(' {
        r := ParseItemGroup();
      } else {
        r := ParseCharacter();
      }
    }

    method ParseCharacter() returns (r: ParseResult<RegexItem>)
      requires |input| > 0
      modifies this
      ensures Step(r, input) == CharacterStep(old(input))
    {
      var c := input[0];
      input := input[1..];
      var a := ParseAnnotation();
      r := Ok(RegexItem(Character(c), a));
    }

    method ParseCharacterGroup() returns (r: ParseResult<RegexItem>)
      requires |input| > 0 && input[0] == '['
      modifies this
      ensures Step(r, input) == ClassStep(old(input))
    {
      ghost var s := input;
      input := input[1..];
      var units: seq<RegexUnit> := [];
      assert input == s[1..];

      // a '-' right after '[' is a literal
      if |input| > 0 && input[0] == '-' {
        input := input[1..];
        units := units + [Character('-')];
        assert units == [Character('-')];
      }
      assert ClassBody(input, units) == ClassStep(s);

      while true
        invariant ClassBody(input, units) == ClassStep(old(input))
        decreases |input|
      {
        if |input| == 0 {
          return Err;
        }
        var c := input[0];
        input := input[1..];
        if c == '\\' {
          if |input| > 0 && input[0] == 'd' {
            input := input[1..];
            units := units + [CharacterRange('0', '9')];
          } else if |input| > 0 && (input[0] == '\\' || input[0] == '[' || input[0] == ']') {
            units := units + [Character(input[0])];
            input := input[1..];
          } else {
            return Err;
          }
        } else if IsRangeStart(c) {
          if |input| > 0 && input[0] == '-' {
            input := input[1..];
            if |input| > 0 && input[0] == RangeEnd(c) {
              input := input[1..];
              units := units + [CharacterRange(c, RangeEnd(c))];
            } else {
              if |input| > 0 {
                input := input[1..];
              }
              return Err;
            }
          } else {
            units := units + [Character(c)];
          }
        } else if c == ']' {
          var a := ParseAnnotation();
          return Ok(RegexItem(Characters(units), a));
        } else {
          units := units + [Character(c)];
        }
      }
    }

    method ParseItemGroup() returns (r: ParseResult<RegexItem>)
      modifies this
      ensures Step(r, input) == GroupStep(old(input))
      decreases |input|, 0
    {
      if |input| > 0 {
        input := input[1..];
      }
      var items: seq<RegexItem> := [];
      while true
        invariant |input| < |old(input)| || input == []
        invariant GroupBody(input, items) == GroupStep(old(input))
        decreases |input|
      {
        if |input| == 0 {
          return Err;
        }
        if input[0] == ')' {
          input := input[1..];
          var a := ParseAnnotation();
          return Ok(RegexItem(Items(items), a));
        }
        var d := Dispatch();
        if d.Err? {
          return Err;
        }
        items := items + [d.value];
      }
    }

    method ParseAnnotation() returns (a: RegexAnnotation)
      modifies this
      ensures a == AnnotationOf(old(input)) && input == AfterAnnotation(old(input))
    {
      if |input| > 0 && input[0] == '?' {
        a := OneOrZero;
      } else if |input| > 0 && input[0] == '+' {
        a := GreaterZero;
      } else if |input| > 0 && input[0] == '*' {
        a := AnyOccurs;
      } else {
        return StandAlone;
      }
      input := input[1..];
    }
  }

  /** `From<&str> for RegexItem`: the `unwrap` never fails. */
  method FromStr(s: string) returns (item: RegexItem)
    ensures ParsePattern(s) == Ok(item)
  {
    var p := new RegexParser(s);
    var r := p.Parse();
    item := r.value;
  }

  // ---------------------------------------------------------------------------
  // Properties of the parser
  // ---------------------------------------------------------------------------

  /** `parse_annotation` consumes one character exactly when it is '?', '+' or
      '*', and then names the matching quantifier. */
  lemma AnnotationConsumption(s: seq<char>)
    ensures AnnotationOf(s) != StandAlone <==> |s| > 0 && IsAnnotationChar(s[0])
    ensures AfterAnnotation(s) == if |s| > 0 && IsAnnotationChar(s[0]) then s[1..] else s
  {
  }

  /** Reading back a printed quantifier yields it and consumes exactly its text. */
  lemma AnnotationRoundTrip(a: RegexAnnotation, rest: seq<char>)
    requires NoAnnotationAhead(rest)
    ensures AnnotationOf(AnnotationText(a) + rest) == a
    ensures AfterAnnotation(AnnotationText(a) + rest) == rest
  {
  }

  /** Outside brackets every character other than '[' and '(' (also '\' and
      ')') is read as one literal character. */
  lemma DispatchPlainCharacter(c: char, rest: seq<char>)
    requires c != '[' && c != '('
    ensures DispatchStep([c] + rest)
         == Step(Ok(RegexItem(Character(c), AnnotationOf(rest))), AfterAnnotation(rest))
  {
  }

  /** Inside brackets `\d` reads exactly like `0-9`. */
  lemma DigitEscapeIsDigitRange(rest: seq<char>)
    ensures ClassUnitStep("\\d" + rest) == ClassUnitStep("0-9" + rest)
    ensures ClassUnitStep("\\d" + rest) == Step(Ok(CharacterRange('0', '9')), rest)
  {
  }

  /** Inside brackets `\\`, `\[` and `\]` stand for the escaped character. */
  lemma EscapedLiteral(c: char, rest: seq<char>)
    requires c == '\\' || c == '[' || c == ']'
    ensures ClassUnitStep(['\\', c] + rest) == Step(Ok(Character(c)), rest)
  {
  }

  /** Any other escape inside brackets is an error. */
  lemma UnknownEscapeIsError(rest: seq<char>)
    requires |rest| == 0 || (rest[0] != 'd' && rest[0] != '\\' && rest[0] != '[' && rest[0] != ']')
    ensures ClassUnitStep(['\\'] + rest).result.Err?
  {
  }

  /** 'a-', 'A-' and '0-' must be followed by 'z', 'Z' and '9' respectively. */
  lemma BadRangeIsError(lo: char, rest: seq<char>)
    requires IsRangeStart(lo)
    requires |rest| == 0 || rest[0] != RangeEnd(lo)
    ensures ClassUnitStep([lo, '-'] + rest).result.Err?
  {
  }

  /** A '-' right after '[' is a literal character. */
  lemma LeadingDashIsLiteral(t: seq<char>)
    ensures ClassStep(['[', '-'] + t) == ClassBody(t, [Character('-')])
  {
    assert (['[', '-'] + t)[1..][1..] == t;
  }

  /** End of input before ']' is an error. */
  lemma {:induction false} UnterminatedClassIsError(t: seq<char>, acc: seq<RegexUnit>)
    requires ']' !in t
    ensures ClassBody(t, acc).result.Err?
    decreases |t|
  {
    if t != [] {
      var u := ClassUnitStep(t);
      if u.result.Ok? {
        ClassUnitSuffix(t);
        assert forall c :: c in u.rest ==> c in t by {
          assert u.rest == t[|t| - |u.rest|..];
        }
        UnterminatedClassIsError(u.rest, acc + [u.result.value]);
      }
    }
  }

  /** End of input before ')' is an error, however the group's items nest. */
  lemma {:induction false} UnterminatedGroupIsError(t: seq<char>, acc: seq<RegexItem>)
    requires ')' !in t
    ensures GroupBody(t, acc).result.Err?
    decreases |t|
  {
    if t != [] {
      var d := DispatchStep(t);
      if d.result.Ok? {
        DispatchSuffix(t);
        assert forall c :: c in d.rest ==> c in t by {
          assert d.rest == t[|t| - |d.rest|..];
        }
        UnterminatedGroupIsError(d.rest, acc + [d.result.value]);
      }
    }
  }

  /** Once a dispatch fails, `parse` stops and keeps the items read so far. */
  lemma TopItemsStopAtFailure(s: seq<char>, acc: seq<RegexItem>)
    requires DispatchStep(s).result.Err?
    ensures TopItems(s, acc) == (acc, DispatchStep(s).rest)
  {
  }

  // --- The cursor only moves forward ---------------------------------------

  lemma SuffixTransitive(a: seq<char>, b: seq<char>, c: seq<char>)
    requires IsSuffix(a, b) && IsSuffix(b, c)
    ensures IsSuffix(a, c)
  {
    assert c[|c| - |a|..] == c[|c| - |b|..][|b| - |a|..];
  }

  lemma AfterAnnotationSuffix(s: seq<char>)
    ensures IsSuffix(AfterAnnotation(s), s)
  {
  }

  lemma ClassUnitSuffix(t: seq<char>)
    requires |t| > 0 && t[0] != ']'
    ensures IsSuffix(ClassUnitStep(t).rest, t)
  {
  }

  lemma {:induction false} ClassBodySuffix(t: seq<char>, acc: seq<RegexUnit>)
    ensures IsSuffix(ClassBody(t, acc).rest, t)
    decreases |t|
  {
    if t == [] {
    } else if t[0] == ']' {
      AfterAnnotationSuffix(t[1..]);
      SuffixTransitive(AfterAnnotation(t[1..]), t[1..], t);
    } else {
      var u := ClassUnitStep(t);
      ClassUnitSuffix(t);
      if u.result.Ok? {
        ClassBodySuffix(u.rest, acc + [u.result.value]);
        SuffixTransitive(ClassBody(t, acc).rest, u.rest, t);
      }
    }
  }

  /** Every parsing step leaves a suffix of its input unread. */
  lemma {:induction false} DispatchSuffix(s: seq<char>)
    ensures IsSuffix(DispatchStep(s).rest, s)
    decreases |s|, 1
  {
    if s == [] {
    } else if s[0] == '[' {
      ClassBodySuffix(s[1..], []);
      SuffixTransitive(ClassBody(s[1..], []).rest, s[1..], s);
      if |s| > 1 && s[1] == '-' {
        ClassBodySuffix(s[2..], [Character('-')]);
        SuffixTransitive(ClassBody(s[2..], [Character('-')]).rest, s[2..], s);
      }
    } else if s[0] == '(' {
      GroupBodySuffix(s[1..], []);
      SuffixTransitive(GroupBody(s[1..], []).rest, s[1..], s);
    } else {
      AfterAnnotationSuffix(s[1..]);
      SuffixTransitive(AfterAnnotation(s[1..]), s[1..], s);
    }
  }

  lemma {:induction false} GroupBodySuffix(t: seq<char>, acc: seq<RegexItem>)
    ensures IsSuffix(GroupBody(t, acc).rest, t)
    decreases |t|, 2
  {
    if t == [] {
    } else if t[0] == ')' {
      AfterAnnotationSuffix(t[1..]);
      SuffixTransitive(AfterAnnotation(t[1..]), t[1..], t);
    } else {
      var d := DispatchStep(t);
      DispatchSuffix(t);
      if d.result.Ok? {
        GroupBodySuffix(d.rest, acc + [d.result.value]);
        SuffixTransitive(GroupBody(t, acc).rest, d.rest, t);
      }
    }
  }

  /** The bracket loop succeeds only by reading a `]` of its input: what is
      left is the input after that `]` and its quantifier. */
  lemma {:induction false} ClassBodyReadsClose(t: seq<char>, acc: seq<RegexUnit>)
    ensures ClassBody(t, acc).result.Ok? ==>
              exists k :: 0 <= k < |t| && t[k] == ']' && ClassBody(t, acc).rest == AfterAnnotation(t[k + 1..])
    decreases |t|
  {
    if t != [] && t[0] != ']' {
      var u := ClassUnitStep(t);
      if u.result.Ok? && ClassBody(t, acc).result.Ok? {
        ClassUnitSuffix(t);
        ClassBodyReadsClose(u.rest, acc + [u.result.value]);
        var k :| 0 <= k < |u.rest| && u.rest[k] == ']' &&
                 ClassBody(u.rest, acc + [u.result.value]).rest == AfterAnnotation(u.rest[k + 1..]);
        var d := |t| - |u.rest|;
        assert t[d + k] == ']' && t[d + k + 1..] == u.rest[k + 1..];
      }
    }
  }

  /** The group loop succeeds only by reading a `)` of its input: what is
      left is the input after that `)` and its quantifier. */
  lemma {:induction false} GroupBodyReadsClose(t: seq<char>, acc: seq<RegexItem>)
    ensures GroupBody(t, acc).result.Ok? ==>
              exists k :: 0 <= k < |t| && t[k] == ')' && GroupBody(t, acc).rest == AfterAnnotation(t[k + 1..])
    decreases |t|
  {
    if t != [] && t[0] != ')' {
      var d := DispatchStep(t);
      if d.result.Ok? && GroupBody(t, acc).result.Ok? {
        DispatchSuffix(t);
        GroupBodyReadsClose(d.rest, acc + [d.result.value]);
        var k :| 0 <= k < |d.rest| && d.rest[k] == ')' &&
                 GroupBody(d.rest, acc + [d.result.value]).rest == AfterAnnotation(d.rest[k + 1..]);
        var n := |t| - |d.rest|;
        assert t[n + k] == ')' && t[n + k + 1..] == d.rest[k + 1..];
      }
    }
  }

  /** An escaped `]` does not close a class, and a `)` inside a class does not
      close a group: both inputs end before their group is closed. */
  lemma EscapedOrNestedCloseIsUnterminated()
    ensures ClassStep("[\\]").result.Err?
    ensures GroupStep("(x[)]").result.Err?
  {
    assert "[\\]"[1..] == "\\]";
    assert "(x[)]"[1..] == "x[)]";
  }

  // --- Printing is a right inverse of parsing on well-formed trees ----------

  /** A bracket-expression unit that the printer writes in a form the parser
      reads back: no ']' or '\\' (which print unescaped) and only the three
      ranges the parser knows. */
  predicate WellFormedClassUnit(u: RegexUnit)
  {
    match u
    case Character(c) => c != ']' && c != '\\'
    case CharacterRange(lo, hi) => IsRangeStart(lo) && hi == RangeEnd(lo)
    case _ => false
  }

  /** Besides, a literal 'a', 'A' or '0' is never followed by a literal '-'. */
  predicate WellFormedClassUnits(units: seq<RegexUnit>)
  {
    units == [] ||
    (&& WellFormedClassUnit(units[0])
     && (units[0].Character? && IsRangeStart(units[0].c) && |units| > 1 ==> units[1] != Character('-'))
     && WellFormedClassUnits(units[1..]))
  }

  /** An item whose text reads back as itself when followed by further items. */
  predicate WellFormedItem(item: RegexItem)
    decreases item
  {
    match item.unit
    case Character(c) => c != '[' && c != '(' && c != ')' && !IsAnnotationChar(c)
    case CharacterRange(_, _) => false
    case Characters(units) => WellFormedClassUnits(units)
    case Items(items) => WellFormedItems(items)
  }

  predicate WellFormedItems(items: seq<RegexItem>)
    decreases items
  {
    items == [] || (WellFormedItem(items[0]) && WellFormedItems(items[1..]))
  }

  lemma ClassUnitTextHead(u: RegexUnit)
    requires WellFormedClassUnit(u)
    ensures |UnitText(u)| > 0 && UnitText(u)[0] != ']'
    ensures UnitText(u)[0] == '-' ==> u == Character('-')
  {
  }

  lemma ItemTextHead(item: RegexItem)
    requires WellFormedItem(item)
    ensures |ItemText(item)| > 0
    ensures ItemText(item)[0] != ')' && !IsAnnotationChar(ItemText(item)[0])
  {
  }

  lemma ClassUnitText(u: RegexUnit, tail: seq<char>)
    requires WellFormedClassUnit(u)
    requires u.Character? && IsRangeStart(u.c) ==> |tail| == 0 || tail[0] != '-'
    ensures |UnitText(u) + tail| > 0 && (UnitText(u) + tail)[0] != ']'
    ensures ClassUnitStep(UnitText(u) + tail) == Step(Ok(u), tail)
  {
    var t := UnitText(u) + tail;
    match u
    case Character(c) =>
      assert t[1..] == tail;
    case CharacterRange(lo, hi) =>
      assert t[3..] == tail;
  }

  lemma {:induction false} ClassBodyText(units: seq<RegexUnit>, acc: seq<RegexUnit>, rest: seq<char>)
    requires WellFormedClassUnits(units)
    ensures ClassBody(UnitsText(units) + "]" + rest, acc)
         == Step(Ok(RegexItem(Characters(acc + units), AnnotationOf(rest))), AfterAnnotation(rest))
    decreases units
  {
    if units == [] {
      ClassBodyClose(acc, rest);
      assert acc + units == acc;
    } else {
      var u := units[0];
      var tail := UnitsText(units[1..]) + "]" + rest;
      assert UnitsText(units) + "]" + rest == UnitText(u) + tail;
      ClassTailHead(units, rest);
      ClassUnitText(u, tail);
      ClassBodyStep(UnitText(u) + tail, acc);
      ClassBodyText(units[1..], acc + [u], rest);
      SnocThenTail(acc, units);
    }
  }

  lemma ClassBodyClose(acc: seq<RegexUnit>, rest: seq<char>)
    ensures ClassBody("]" + rest, acc)
         == Step(Ok(RegexItem(Characters(acc), AnnotationOf(rest))), AfterAnnotation(rest))
  {
    assert ("]" + rest)[1..] == rest;
  }

  lemma ClassBodyStep(t: seq<char>, acc: seq<RegexUnit>)
    requires |t| > 0 && t[0] != ']' && ClassUnitStep(t).result.Ok?
    ensures ClassBody(t, acc) == ClassBody(ClassUnitStep(t).rest, acc + [ClassUnitStep(t).result.value])
  {
  }

  /** What follows the first unit of a well-formed bracket body is never a '-'
      that would turn a literal 'a', 'A' or '0' into a range. */
  lemma ClassTailHead(units: seq<RegexUnit>, rest: seq<char>)
    requires WellFormedClassUnits(units) && units != []
    ensures var tail := UnitsText(units[1..]) + "]" + rest;
      units[0].Character? && IsRangeStart(units[0].c) ==> |tail| == 0 || tail[0] != '-'
  {
    if |units| > 1 {
      ClassUnitTextHead(units[1]);
      assert UnitsText(units[1..]) == UnitText(units[1]) + UnitsText(units[2..]);
    }
  }

  lemma {:induction false} DispatchText(item: RegexItem, rest: seq<char>)
    requires WellFormedItem(item) && NoAnnotationAhead(rest)
    ensures DispatchStep(ItemText(item) + rest) == Step(Ok(item), rest)
    decreases item
  {
    match item.unit
    case Character(c) =>
      DispatchCharacterItemText(item, rest);
    case Characters(units) =>
      DispatchClassItemText(item, rest);
    case Items(items) =>
      var after := AnnotationText(item.annotation) + rest;
      GroupBodyText(items, [], after);
      DispatchGroupItemText(item, rest);
  }

  lemma DispatchCharacterItemText(item: RegexItem, rest: seq<char>)
    requires item.unit.Character? && WellFormedItem(item) && NoAnnotationAhead(rest)
    ensures DispatchStep(ItemText(item) + rest) == Step(Ok(item), rest)
  {
    var after := AnnotationText(item.annotation) + rest;
    AnnotationRoundTrip(item.annotation, rest);
    assert ItemText(item) + rest == [item.unit.c] + after;
    DispatchPlainCharacter(item.unit.c, after);
  }

  lemma DispatchClassItemText(item: RegexItem, rest: seq<char>)
    requires item.unit.Characters? && WellFormedItem(item) && NoAnnotationAhead(rest)
    ensures DispatchStep(ItemText(item) + rest) == Step(Ok(item), rest)
  {
    var after := AnnotationText(item.annotation) + rest;
    var units := item.unit.units;
    AnnotationRoundTrip(item.annotation, rest);
    assert ItemText(item) + rest == "[" + (UnitsText(units) + "]" + after);
    ClassStepText(units, after);
    DispatchClass("[" + (UnitsText(units) + "]" + after));
  }

  lemma DispatchGroupItemText(item: RegexItem, rest: seq<char>)
    requires item.unit.Items? && NoAnnotationAhead(rest)
    requires var after := AnnotationText(item.annotation) + rest;
      GroupBody(ItemsText(item.unit.items) + ")" + after, [])
      == Step(Ok(RegexItem(Items([] + item.unit.items), AnnotationOf(after))), AfterAnnotation(after))
    ensures DispatchStep(ItemText(item) + rest) == Step(Ok(item), rest)
  {
    var after := AnnotationText(item.annotation) + rest;
    var items := item.unit.items;
    var body := ItemsText(items) + ")" + after;
    AnnotationRoundTrip(item.annotation, rest);
    GroupItemTextShape(item, rest);
    DispatchGroup(body);
    assert [] + items == items;
    assert RegexItem(Items(items), item.annotation) == item;
  }

  lemma GroupItemTextShape(item: RegexItem, rest: seq<char>)
    requires item.unit.Items?
    ensures ItemText(item) + rest
         == "(" + (ItemsText(item.unit.items) + ")" + (AnnotationText(item.annotation) + rest))
  {
  }

  lemma DispatchClass(s: seq<char>)
    requires |s| > 0 && s[0] == '['
    ensures DispatchStep(s) == ClassStep(s)
  {
  }

  lemma DispatchGroup(t: seq<char>)
    ensures DispatchStep("(" + t) == GroupBody(t, [])
  {
    assert ("(" + t)[1..] == t;
  }

  lemma ClassStepText(units: seq<RegexUnit>, after: seq<char>)
    requires WellFormedClassUnits(units)
    ensures ClassStep("[" + (UnitsText(units) + "]" + after))
         == Step(Ok(RegexItem(Characters(units), AnnotationOf(after))), AfterAnnotation(after))
  {
    var t := UnitsText(units) + "]" + after;
    assert ("[" + t)[1..] == t;
    if |t| > 0 && t[0] == '-' {
      ClassStepLeadingDash(units, after);
    } else {
      ClassBodyText(units, [], after);
      assert [] + units == units;
    }
  }

  lemma ClassStepLeadingDash(units: seq<RegexUnit>, after: seq<char>)
    requires WellFormedClassUnits(units)
    requires var t := UnitsText(units) + "]" + after; |t| > 0 && t[0] == '-'
    ensures var t := UnitsText(units) + "]" + after;
      ClassBody(t[1..], [Character('-')])
      == Step(Ok(RegexItem(Characters(units), AnnotationOf(after))), AfterAnnotation(after))
  {
    var t := UnitsText(units) + "]" + after;
    if units == [] {
      assert false;
    } else {
      var tail := UnitsText(units[1..]) + "]" + after;
      ClassUnitTextHead(units[0]);
      assert t == UnitText(units[0]) + tail;
      assert units[0] == Character('-');
      assert t[1..] == tail;
      ClassBodyText(units[1..], [Character('-')], after);
      assert [Character('-')] + units[1..] == units;
    }
  }

  lemma {:induction false} GroupBodyText(items: seq<RegexItem>, acc: seq<RegexItem>, rest: seq<char>)
    requires WellFormedItems(items)
    ensures GroupBody(ItemsText(items) + ")" + rest, acc)
         == Step(Ok(RegexItem(Items(acc + items), AnnotationOf(rest))), AfterAnnotation(rest))
    decreases items
  {
    if items == [] {
      GroupBodyClose(acc, rest);
      assert acc + items == acc;
    } else {
      var tail := ItemsText(items[1..]) + ")" + rest;
      assert ItemsText(items) + ")" + rest == ItemText(items[0]) + tail;
      ItemTextHead(items[0]);
      ItemsTailHead(items, ")" + rest);
      assert ItemsText(items[1..]) + (")" + rest) == tail;
      DispatchText(items[0], tail);
      GroupBodyStep(ItemText(items[0]) + tail, acc);
      GroupBodyText(items[1..], acc + [items[0]], rest);
      SnocThenTail(acc, items);
    }
  }

  lemma GroupBodyClose(acc: seq<RegexItem>, rest: seq<char>)
    ensures GroupBody(")" + rest, acc)
         == Step(Ok(RegexItem(Items(acc), AnnotationOf(rest))), AfterAnnotation(rest))
  {
    assert (")" + rest)[1..] == rest;
  }

  lemma GroupBodyStep(t: seq<char>, acc: seq<RegexItem>)
    requires |t| > 0 && t[0] != ')' && DispatchStep(t).result.Ok?
    ensures GroupBody(t, acc) == GroupBody(DispatchStep(t).rest, acc + [DispatchStep(t).result.value])
  {
  }

  /** The text after the first of several well-formed items starts with the
      next item or with what follows them all. */
  lemma ItemsTailHead(items: seq<RegexItem>, t: seq<char>)
    requires WellFormedItems(items) && items != [] && NoAnnotationAhead(t)
    ensures NoAnnotationAhead(ItemsText(items[1..]) + t)
    ensures |t| > 0 && t[0] == ')' ==> |ItemsText(items[1..]) + t| > 0
  {
    if |items| > 1 {
      ItemTextHead(items[1]);
      assert ItemsText(items[1..]) == ItemText(items[1]) + ItemsText(items[2..]);
    } else {
      assert ItemsText(items[1..]) + t == t;
    }
  }

  /** `parse` reads the well-formed items at the head of its input one by one. */
  lemma {:induction false} TopItemsText(items: seq<RegexItem>, acc: seq<RegexItem>, t: seq<char>)
    requires WellFormedItems(items) && NoAnnotationAhead(t)
    ensures TopItems(ItemsText(items) + t, acc) == TopItems(t, acc + items)
    decreases items
  {
    if items == [] {
      assert ItemsText(items) + t == t;
      assert acc + items == acc;
    } else {
      var next := acc + [items[0]];
      TopItemsFirst(items, acc, t);
      TopItemsText(items[1..], next, t);
      SnocThenTail(acc, items);
    }
  }

  lemma SnocThenTail<T>(acc: seq<T>, xs: seq<T>)
    requires xs != []
    ensures acc + [xs[0]] + xs[1..] == acc + xs
  {
    assert xs == [xs[0]] + xs[1..];
  }

  lemma TopItemsFirst(items: seq<RegexItem>, acc: seq<RegexItem>, t: seq<char>)
    requires WellFormedItems(items) && items != [] && NoAnnotationAhead(t)
    ensures TopItems(ItemsText(items) + t, acc) == TopItems(ItemsText(items[1..]) + t, acc + [items[0]])
  {
    var tail := ItemsText(items[1..]) + t;
    assert ItemsText(items) + t == ItemText(items[0]) + tail;
    ItemsTailHead(items, t);
    DispatchText(items[0], tail);
    TopItemsStep(ItemText(items[0]) + tail, acc);
  }

  lemma TopItemsStep(s: seq<char>, acc: seq<RegexItem>)
    requires DispatchStep(s).result.Ok?
    ensures TopItems(s, acc) == TopItems(DispatchStep(s).rest, acc + [DispatchStep(s).result.value])
  {
  }

  /** Parsing the printed text of well-formed items yields exactly those items. */
  lemma ParsePrintRoundTrip(items: seq<RegexItem>)
    requires WellFormedItems(items)
    ensures ParsePattern(ItemsText(items)) == Ok(RegexItem(Items(items), StandAlone))
  {
    var text := ItemsText(items);
    TopItemsText(items, [], []);
    assert text + [] == text;
    TopItemsStopAtFailure([], [] + items);
    assert [] + items == items;
    assert TopItems(text, []).0 == items;
  }

  /** `to_string` of one well-formed item parses back to a pattern holding it. */
  lemma ItemToStringParsesBack(item: RegexItem)
    requires WellFormedItem(item)
    ensures ParsePattern(ItemText(item)) == Ok(RegexItem(Items([item]), StandAlone))
  {
    assert ItemsText([item]) == ItemText(item) + ItemsText([]);
    assert ItemText(item) + [] == ItemText(item);
    assert WellFormedItems([item]) by {
      assert [item][1..] == [];
    }
    ParsePrintRoundTrip([item]);
  }

  /** A failing sub-parse does not surface at top level: the items before it
      are kept and the rest of the pattern is ignored. */
  lemma FailureEndsPatternSilently(items: seq<RegexItem>, t: seq<char>)
    requires WellFormedItems(items) && NoAnnotationAhead(t) && DispatchStep(t).result.Err?
    ensures ParsePattern(ItemsText(items) + t) == Ok(RegexItem(Items(items), StandAlone))
  {
    TopItemsText(items, [], t);
    TopItemsStopAtFailure(t, [] + items);
    assert [] + items == items;
  }

  /** The tree both patterns of the source's own parser test denote. */
  function SourceTestTree(): RegexItem
  {
    var units := [Character('-'), Character('a'), Character('\\'), Character('b'), Character('d'),
                  Character('['), Character(']'), CharacterRange('0', '9')];
    RegexItem(Items([RegexItem(Character('a'), StandAlone), RegexItem(Characters(units), GreaterZero)]), StandAlone)
  }

  /** A character with no special meaning inside brackets reads as itself. */
  lemma PlainClassUnit(c: char, rest: seq<char>)
    requires c != ']' && c != '\\' && (IsRangeStart(c) ==> |rest| == 0 || rest[0] != '-')
    ensures ClassUnitStep([c] + rest) == Step(Ok(Character(c)), rest)
  {
    assert ([c] + rest)[1..] == rest;
  }

  /** The units common to both test patterns, read up to the last unit. */
  lemma SourceTestCommonUnits(tail: seq<char>)
    requires |tail| > 0 && tail[0] != '-'
    ensures ClassBody("a" + ("\\\\" + ("b" + ("d" + ("\\[" + ("\\]" + tail))))), [Character('-')])
         == ClassBody(tail, [Character('-'), Character('a'), Character('\\'), Character('b'), Character('d'),
                             Character('['), Character(']')])
  {
    var t3 := "d" + ("\\[" + ("\\]" + tail));
    SourceTestFirstUnits(t3);
    SourceTestLastUnits(tail);
  }

  lemma SourceTestFirstUnits(t3: seq<char>)
    requires |t3| > 0 && t3[0] == 'd'
    ensures ClassBody("a" + ("\\\\" + ("b" + t3)), [Character('-')])
         == ClassBody(t3, [Character('-'), Character('a'), Character('\\'), Character('b')])
  {
    var t2 := "b" + t3;
    var t1 := "\\\\" + t2;
    var a1 := [Character('-'), Character('a')];
    var a2 := [Character('-'), Character('a'), Character('\\')];
    assert [Character('-')] + [Character('a')] == a1;
    assert a1 + [Character('\\')] == a2;
    PlainClassUnit('a', t1);
    ClassBodyStep("a" + t1, [Character('-')]);
    EscapedLiteral('\\', t2);
    ClassBodyStep(t1, a1);
    PlainClassUnit('b', t3);
    var a3 := [Character('-'), Character('a'), Character('\\'), Character('b')];
    assert a2 + [Character('b')] == a3;
    ClassBodyStep(t2, a2);
  }

  lemma SourceTestLastUnits(tail: seq<char>)
    requires |tail| > 0 && tail[0] != '-'
    ensures ClassBody("d" + ("\\[" + ("\\]" + tail)), [Character('-'), Character('a'), Character('\\'), Character('b')])
         == ClassBody(tail, [Character('-'), Character('a'), Character('\\'), Character('b'), Character('d'),
                             Character('['), Character(']')])
  {
    var t5 := "\\]" + tail;
    var t4 := "\\[" + t5;
    var a3 := [Character('-'), Character('a'), Character('\\'), Character('b')];
    var a4 := [Character('-'), Character('a'), Character('\\'), Character('b'), Character('d')];
    var a5 := [Character('-'), Character('a'), Character('\\'), Character('b'), Character('d'), Character('[')];
    var a6 := [Character('-'), Character('a'), Character('\\'), Character('b'), Character('d'),
               Character('['), Character(']')];
    assert a3 + [Character('d')] == a4;
    assert a4 + [Character('[')] == a5;
    assert a5 + [Character(']')] == a6;
    PlainClassUnit('d', t4);
    ClassBodyStep("d" + t4, a3);
    EscapedLiteral('[', t5);
    ClassBodyStep(t4, a4);
    EscapedLiteral(']', tail);
    ClassBodyStep(t5, a5);
  }

  /** `a[-a\\bd\[\]\d]+` and `a[-a\\bd\[\]0-9]+` parse to the same tree:
      `\d` inside a bracket expression is the range '0'-'9'. */
  lemma SourceTestPatternsAgree()
    ensures ParsePattern("a[-a\\\\bd\\[\\]\\d]+") == Ok(SourceTestTree())
    ensures ParsePattern("a[-a\\\\bd\\[\\]0-9]+") == Ok(SourceTestTree())
  {
    var p1 := "a[-a\\\\bd\\[\\]\\d]+";
    var p2 := "a[-a\\\\bd\\[\\]0-9]+";
    assert p1 == "a" + ("[-" + ("a" + ("\\\\" + ("b" + ("d" + ("\\[" + ("\\]" + ("\\d" + "]+"))))))));
    assert p2 == "a" + ("[-" + ("a" + ("\\\\" + ("b" + ("d" + ("\\[" + ("\\]" + ("0-9" + "]+"))))))));
    SourceTestPattern("\\d");
    SourceTestPattern("0-9");
  }

  lemma SourceTestPattern(last: seq<char>)
    requires last == "\\d" || last == "0-9"
    ensures ParsePattern("a" + ("[-" + ("a" + ("\\\\" + ("b" + ("d" + ("\\[" + ("\\]" + (last + "]+")))))))))
         == Ok(SourceTestTree())
  {
    var body := "a" + ("\\\\" + ("b" + ("d" + ("\\[" + ("\\]" + (last + "]+"))))));
    var cls := "[-" + body;
    var s := "a" + cls;
    var seen := [Character('-'), Character('a'), Character('\\'), Character('b'), Character('d'),
                 Character('['), Character(']')];
    var units := [Character('-'), Character('a'), Character('\\'), Character('b'), Character('d'),
                  Character('['), Character(']'), CharacterRange('0', '9')];
    assert seen + [CharacterRange('0', '9')] == units;
    var clsItem := RegexItem(Characters(units), GreaterZero);
    DispatchPlainCharacter('a', cls);
    assert DispatchStep(s) == Step(Ok(RegexItem(Character('a'), StandAlone)), cls);
    LeadingDashIsLiteral(body);
    SourceTestCommonUnits(last + "]+");
    DigitEscapeIsDigitRange("]+");
    assert ClassUnitStep(last + "]+") == Step(Ok(CharacterRange('0', '9')), "]+");
    ClassBodyStep(last + "]+", seen);
    ClassBodyClose(units, "+");
    assert DispatchStep(cls) == Step(Ok(clsItem), []);
    TopItemsStep(s, []);
    var first := RegexItem(Character('a'), StandAlone);
    assert [] + [first] == [first];
    TopItemsStep(cls, [first]);
    TopItemsStopAtFailure([], [first] + [clsItem]);
    assert [first] + [clsItem] == SourceTestTree().unit.items;
  }
}
