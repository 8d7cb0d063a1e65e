/*
 * Running a transition table over an input string: one state at a time,
 * following the first matching edge, with no backtracking.
 */
module Engine {
  import opened Nfa
  import opened TransTables

  /** `c as u8`: the low eight bits of the character's code point. */
  function ToByte(c: char): (b: byte)
    ensures (c as int) < 256 ==> b as int == c as int
    ensures (c as int - b as int) % 256 == 0
  {
    ((c as int) % 256) as byte
  }

  function Bytes(s: seq<char>): (bs: seq<byte>)
    ensures |bs| == |s|
    ensures forall i :: 0 <= i < |s| ==> bs[i] == ToByte(s[i])
  {
    seq(|s|, i requires 0 <= i < |s| => ToByte(s[i]))
  }

  /** `Edge::match_character`, which is not part of this model: whether an
      edge may be taken on a byte. */
  type Matcher = (Edge, byte) -> bool

  /** `edges.iter().find(|x| x.match_character(b))`: the position of the
      first matching edge, if there is one. */
  function FirstMatch(edges: seq<Edge>, matches: Matcher, b: byte): (r: Option<nat>)
    ensures r.Some? ==> r.value < |edges| && matches(edges[r.value], b)
    ensures r.Some? ==> forall j :: 0 <= j < r.value ==> !matches(edges[j], b)
    ensures r.None? <==> forall j :: 0 <= j < |edges| ==> !matches(edges[j], b)
  {
    if edges == [] then None
    else if matches(edges[0], b) then Some(0)
    else
      match FirstMatch(edges[1..], matches, b)
      case None => None
      case Some(i) => Some(i + 1)
  }

  /** Every state the walk looks up has an entry in `trans`, so the `unwrap`
      in `exact_match` never panics. */
  predicate Defined(trans: map<nat, seq<Edge>>, matches: Matcher, state: nat, s: seq<byte>)
    decreases |s|
  {
    s == [] ||
    (state in trans &&
     match FirstMatch(trans[state], matches, s[0])
     case None => true
     case Some(i) => Defined(trans, matches, trans[state][i].nextNode, s[1..]))
  }

  /** The state reached after reading all of `s` from `state`, following the
      first matching edge each time; `None` when some byte matches no edge. */
  function Walk(trans: map<nat, seq<Edge>>, matches: Matcher, state: nat, s: seq<byte>): Option<nat>
    requires Defined(trans, matches, state, s)
    decreases |s|
  {
    if s == [] then Some(state)
    else
      match FirstMatch(trans[state], matches, s[0])
      case None => None
      case Some(i) => Walk(trans, matches, trans[state][i].nextNode, s[1..])
  }

  /** The walk reads all of `s` and stops in an accepting state. */
  predicate Accepts(trans: map<nat, seq<Edge>>, end: set<nat>, matches: Matcher, state: nat, s: seq<byte>)
    requires Defined(trans, matches, state, s)
  {
    match Walk(trans, matches, state, s)
    case None => false
    case Some(q) => q in end
  }

  class ExecuteEngine {
    var transtable: TransTable

    /** `with_transtable`. */
    constructor WithTranstable(transtable: TransTable)
      ensures this.transtable == transtable
    {
      this.transtable := transtable;
    }

    /** `exact_match`: reads the table and changes nothing. */
    method ExactMatch(matches: Matcher, s: seq<char>) returns (r: bool)
      requires Defined(transtable.trans, matches, transtable.start, Bytes(s))
      ensures r == Accepts(transtable.trans, transtable.end, matches, transtable.start, Bytes(s))
    {
      var trans := transtable.trans;
      var input := Bytes(s);
      var state := transtable.start;
      var i := 0;
      while i < |s|
        invariant 0 <= i <= |s|
        invariant Defined(trans, matches, state, input[i..])
        invariant Walk(trans, matches, transtable.start, input)
               == Walk(trans, matches, state, input[i..])
      {
        var edges := trans[state];
        var found := FirstMatch(edges, matches, ToByte(s[i]));
        if found.None? {
          return false;
        }
        state := edges[found.value].nextNode;
        assert input[i..][1..] == input[i + 1..];
        i := i + 1;
      }
      r := state in transtable.end;
    }
  }

  // ---------------------------------------------------------------------------
  // Properties of the walk
  // ---------------------------------------------------------------------------

  /** The empty string is accepted exactly when the start state accepts. */
  lemma EmptyInput(trans: map<nat, seq<Edge>>, end: set<nat>, matches: Matcher, state: nat)
    ensures Defined(trans, matches, state, [])
    ensures Accepts(trans, end, matches, state, []) <==> state in end
  {
  }

  /** A byte that matches no edge of the current state rejects at once,
      whatever follows it. */
  lemma RejectOnNoMatch(trans: map<nat, seq<Edge>>, end: set<nat>, matches: Matcher, state: nat,
                        b: byte, rest: seq<byte>)
    requires state in trans
    requires forall j :: 0 <= j < |trans[state]| ==> !matches(trans[state][j], b)
    ensures Defined(trans, matches, state, [b] + rest)
    ensures !Accepts(trans, end, matches, state, [b] + rest)
  {
    assert ([b] + rest)[0] == b;
  }

  /** When several edges match, the walk goes on from the first of them. */
  lemma FollowsFirstMatch(trans: map<nat, seq<Edge>>, end: set<nat>, matches: Matcher, state: nat,
                          b: byte, rest: seq<byte>, i: nat)
    requires state in trans && i < |trans[state]| && matches(trans[state][i], b)
    requires forall j :: 0 <= j < i ==> !matches(trans[state][j], b)
    requires Defined(trans, matches, state, [b] + rest)
    ensures Defined(trans, matches, trans[state][i].nextNode, rest)
    ensures Accepts(trans, end, matches, state, [b] + rest)
        == Accepts(trans, end, matches, trans[state][i].nextNode, rest)
  {
    var s := [b] + rest;
    assert s[0] == b && s[1..] == rest;
    assert FirstMatch(trans[state], matches, b) == Some(i);
  }

  /** Reading `a + b` is reading `a`, then reading `b` from where `a` left
      off. */
  lemma {:induction false} WalkAppend(trans: map<nat, seq<Edge>>, matches: Matcher, state: nat,
                                      a: seq<byte>, b: seq<byte>)
    requires Defined(trans, matches, state, a + b)
    ensures Defined(trans, matches, state, a)
    ensures Walk(trans, matches, state, a).Some? ==>
              Defined(trans, matches, Walk(trans, matches, state, a).value, b)
    ensures Walk(trans, matches, state, a + b)
         == match Walk(trans, matches, state, a)
            case None => None
            case Some(q) => Walk(trans, matches, q, b)
    decreases |a|
  {
    if a == [] {
      assert a + b == b;
    } else {
      assert (a + b)[0] == a[0] && (a + b)[1..] == a[1..] + b;
      var f := FirstMatch(trans[state], matches, a[0]);
      if f.Some? {
        WalkAppend(trans, matches, trans[state][f.value].nextNode, a[1..], b);
      }
    }
  }

  /** Every edge of the table leads to a state the table lists. */
  predicate Closed(trans: map<nat, seq<Edge>>)
  {
    forall q, j :: q in trans && 0 <= j < |trans[q]| ==> trans[q][j].nextNode in trans
  }

  /** On a closed table the `unwrap` never panics, whatever the input. */
  lemma {:induction false} ClosedIsDefined(trans: map<nat, seq<Edge>>, matches: Matcher, state: nat,
                                           s: seq<byte>)
    requires Closed(trans) && state in trans
    ensures Defined(trans, matches, state, s)
    decreases |s|
  {
    if s != [] {
      var f := FirstMatch(trans[state], matches, s[0]);
      if f.Some? {
        ClosedIsDefined(trans, matches, trans[state][f.value].nextNode, s[1..]);
      }
    }
  }

  // ---------------------------------------------------------------------------
  // The table for `a\d+b`
  // ---------------------------------------------------------------------------

  /** A label-equality matcher: a labelled edge is taken on its own byte,
      an epsilon edge never. */
  function LabelMatch(e: Edge, b: byte): bool
  {
    e.character == Some(b)
  }

  predicate IsDigit(b: byte)
  {
    48 <= b <= 57
  }

  predicate AllDigits(s: seq<byte>)
  {
    forall i :: 0 <= i < |s| ==> IsDigit(s[i])
  }

  /** The strings `a\d+b` describes: `a`, one or more digits, `b`. */
  predicate ExampleLanguage(s: seq<byte>)
  {
    |s| >= 3 && s[0] == 97 && s[|s| - 1] == 98 && AllDigits(s[1..|s| - 1])
  }

  /** One edge to `dest` for each of the ten digits, in order. */
  function DigitEdges(dest: nat): (es: seq<Edge>)
    ensures |es| == 10
    ensures forall j :: 0 <= j < 10 ==> es[j] == Edge(Some((48 + j) as byte), dest)
  {
    seq(10, j requires 0 <= j < 10 => Edge(Some((48 + j) as byte), dest))
  }

  /** A deterministic table for `a\d+b` with the epsilon edges removed:
      0 reads `a`, 1 reads the first digit, 2 reads further digits or the
      closing `b`, 3 accepts. */
  function ExampleTrans(): map<nat, seq<Edge>>
  {
    map[0 := [Edge(Some(97), 1)],
        1 := DigitEdges(2),
        2 := DigitEdges(2) + [Edge(Some(98), 3)],
        3 := []]
  }

  lemma ExampleClosed()
    ensures Closed(ExampleTrans())
  {
    var t: map<nat, seq<Edge>> := ExampleTrans();
    forall q: nat, j: int | q in t && 0 <= j < |t[q]|
      ensures t[q][j].nextNode in t
    {
      if q == 2 && j < 10 {
        assert t[q][j] == DigitEdges(2)[j];
      }
    }
  }

  lemma DigitStep(dest: nat, b: byte)
    ensures FirstMatch(DigitEdges(dest), LabelMatch, b)
         == if IsDigit(b) then Some((b - 48) as nat) else None
  {
    var es := DigitEdges(dest);
    if IsDigit(b) {
      assert LabelMatch(es[(b - 48) as nat], b);
    }
  }

  lemma DigitOrBStep(b: byte)
    ensures FirstMatch(DigitEdges(2) + [Edge(Some(98), 3)], LabelMatch, b)
         == if IsDigit(b) then Some((b - 48) as nat) else if b == 98 then Some(10) else None
  {
    var es := DigitEdges(2) + [Edge(Some(98), 3)];
    assert forall j :: 0 <= j < 10 ==> es[j] == DigitEdges(2)[j];
    if IsDigit(b) {
      assert LabelMatch(es[(b - 48) as nat], b);
    } else if b == 98 {
      assert LabelMatch(es[10], b);
    }
  }

  /** From state 2 the walk ends in 3 exactly on digits followed by `b`. */
  lemma {:induction false} ExampleFromTwo(s: seq<byte>)
    ensures Defined(ExampleTrans(), LabelMatch, 2, s)
    ensures Walk(ExampleTrans(), LabelMatch, 2, s) == Some(3)
        <==> |s| >= 1 && s[|s| - 1] == 98 && AllDigits(s[..|s| - 1])
    decreases |s|
  {
    ExampleClosed();
    ClosedIsDefined(ExampleTrans(), LabelMatch, 2, s);
    if s != [] {
      var t := ExampleTrans();
      DigitOrBStep(s[0]);
      if IsDigit(s[0]) {
        ExampleFromTwo(s[1..]);
        if |s| >= 2 {
          assert s[1..][..|s[1..]| - 1] == s[1..|s| - 1];
          assert s[..|s| - 1] == [s[0]] + s[1..|s| - 1];
        }
      } else if s[0] == 98 {
        ClosedIsDefined(t, LabelMatch, 3, s[1..]);
        if |s| >= 2 {
          assert s[..|s| - 1][0] == 98;
        }
      }
    }
  }

  lemma AllDigitsCons(d: byte, r: seq<byte>)
    ensures AllDigits([d] + r) <==> IsDigit(d) && AllDigits(r)
  {
    var dr := [d] + r;
    assert dr[0] == d;
    assert forall i :: 0 <= i < |r| ==> dr[i + 1] == r[i];
  }

  /** The table accepts exactly the strings of `a\d+b`. */
  lemma ExampleAccepts(s: seq<byte>)
    ensures Defined(ExampleTrans(), LabelMatch, 0, s)
    ensures Accepts(ExampleTrans(), {3}, LabelMatch, 0, s) <==> ExampleLanguage(s)
  {
    var t: map<nat, seq<Edge>> := ExampleTrans();
    ExampleClosed();
    ClosedIsDefined(t, LabelMatch, 0, s);
    if s != [] && s[0] == 97 {
      var u := s[1..];
      assert FirstMatch(t[0], LabelMatch, s[0]) == Some(0);
      if u != [] {
        DigitStep(2, u[0]);
        if IsDigit(u[0]) {
          var w := u[1..];
          ExampleFromTwo(w);
          assert Walk(t, LabelMatch, 1, u) == Walk(t, LabelMatch, 2, w);
          assert Walk(t, LabelMatch, 0, s) == Walk(t, LabelMatch, 2, w);
          if |w| >= 1 {
            assert s[|s| - 1] == w[|w| - 1];
            assert s[1..|s| - 1] == [u[0]] + w[..|w| - 1];
            AllDigitsCons(u[0], w[..|w| - 1]);
          }
        } else {
          assert Walk(t, LabelMatch, 0, s) == Walk(t, LabelMatch, 1, u) == None;
          if |s| >= 3 {
            assert s[1..|s| - 1][0] == u[0];
          }
        }
      } else {
        assert Walk(t, LabelMatch, 0, s) == Walk(t, LabelMatch, 1, u) == Some(1);
      }
    } else if s != [] {
      assert !LabelMatch(t[0][0], s[0]);
    }
  }

  /** The four rejected cases of the source's engine test, on the table
      above. */
  lemma ExampleRejects()
    ensures Defined(ExampleTrans(), LabelMatch, 0, Bytes("a"))
    ensures !Accepts(ExampleTrans(), {3}, LabelMatch, 0, Bytes("a"))
    ensures Defined(ExampleTrans(), LabelMatch, 0, Bytes("ab"))
    ensures !Accepts(ExampleTrans(), {3}, LabelMatch, 0, Bytes("ab"))
    ensures Defined(ExampleTrans(), LabelMatch, 0, Bytes("aab"))
    ensures !Accepts(ExampleTrans(), {3}, LabelMatch, 0, Bytes("aab"))
    ensures Defined(ExampleTrans(), LabelMatch, 0, Bytes("a0"))
    ensures !Accepts(ExampleTrans(), {3}, LabelMatch, 0, Bytes("a0"))
  {
    ExampleAccepts(Bytes("a"));
    ExampleAccepts(Bytes("ab"));
    assert Bytes("ab")[1..1] == [];
    ExampleAccepts(Bytes("aab"));
    assert Bytes("aab")[1] == 97;
    assert Bytes("aab")[1..2][0] == 97;
    ExampleAccepts(Bytes("a0"));
  }

  /** The first accepted case of the source's engine test. */
  lemma ExampleMatchesShort()
    ensures Defined(ExampleTrans(), LabelMatch, 0, Bytes("a0b"))
    ensures Accepts(ExampleTrans(), {3}, LabelMatch, 0, Bytes("a0b"))
  {
    var short := Bytes("a0b");
    assert short == [97, 48, 98];
    ExampleAccepts(short);
    assert short[1..2] == [48];
  }

  /** The second accepted case: all ten digits between `a` and `b`. */
  lemma ExampleMatchesLong()
    ensures Defined(ExampleTrans(), LabelMatch, 0, Bytes("a0123456789b"))
    ensures Accepts(ExampleTrans(), {3}, LabelMatch, 0, Bytes("a0123456789b"))
  {
    var long := Bytes("a0123456789b");
    var digits: seq<byte> := [48, 49, 50, 51, 52, 53, 54, 55, 56, 57];
    assert long == [97] + digits + [98];
    assert long[1..|long| - 1] == digits;
    ExampleAccepts(long);
  }
}
