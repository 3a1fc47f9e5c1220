/** The token automaton of `core_state.c`, and the languages its end states stand for. */
module NumberTokens {

  type Byte = bv8

  const COMMA: Byte := 0x2c
  const NUL: Byte := 0

  /** How the automaton tells characters apart. */
  datatype Class = Digit | Sign | Dot | Exp | Other

  function ClassOf(c: Byte): Class {
    if 0x30 <= c <= 0x39 then Digit
    else if c == 0x2b || c == 0x2d then Sign
    else if c == 0x2e then Dot
    else if c == 0x45 || c == 0x65 then Exp
    else Other
  }

  /** The characters of each class. */
  lemma Characters(c: Byte)
    ensures ClassOf(c) == Digit <==> c as char in "0123456789"
    ensures ClassOf(c) == Sign <==> c as char in "+-"
    ensures ClassOf(c) == Dot <==> c as char in "."
    ensures ClassOf(c) == Exp <==> c as char in "eE"
  {
  }

  /** `enum CORE_STATE`, in its order. */
  datatype State = Start | Invalid | S1 | S2 | Int | Float | Exponent | Scientific

  function Index(s: State): (i: nat)
    ensures i < 8
  {
    match s
    case Start => 0 case Invalid => 1 case S1 => 2 case S2 => 3
    case Int => 4 case Float => 5 case Exponent => 6 case Scientific => 7
  }

  function Next(s: State, c: Class): State {
    match s
    case Start => if c.Digit? then Int else if c.Sign? then S1 else if c.Dot? then Float else Invalid
    case S1 => if c.Digit? then Int else if c.Dot? then Float else Invalid
    case Int => if c.Dot? then Float else if c.Digit? then Int else Invalid
    case Float => if c.Exp? then S2 else if c.Digit? then Float else Invalid
    case S2 => if c.Sign? then Exponent else Invalid
    case Exponent => if c.Digit? then Scientific else Invalid
    case Scientific => if c.Digit? then Scientific else Invalid
    case Invalid => Invalid
  }

  /** Which transition counters one character increments. */
  function Counted(s: State, c: Class): set<State> {
    match s
    case Start => if Next(s, c).Invalid? then {Start, Invalid} else {Start}
    case S1 => {S1}
    case Int => if c.Digit? then {} else {Int}
    case Float => if c.Digit? then {} else {Float}
    case S2 => {S2}
    case Exponent => {Exponent}
    case Scientific => if c.Digit? then {} else {Invalid}
    case Invalid => {}
  }

  /** The state after a whole word. */
  function Run(s: State, w: seq<Class>): State {
    if w == [] then s else Next(Run(s, w[..|w| - 1]), w[|w| - 1])
  }

  // ---- languages ----

  ghost predicate Digits(w: seq<Class>) {
    forall i :: 0 <= i < |w| ==> w[i] == Digit
  }

  ghost predicate OptSign(w: seq<Class>) {
    w == [] || w == [Sign]
  }

  /** [+-]? d+ */
  ghost predicate IsInt(w: seq<Class>) {
    exists s, d :: OptSign(s) && Digits(d) && d != [] && w == s + d
  }

  /** [+-]? d* . d* */
  ghost predicate IsFloat(w: seq<Class>) {
    exists s, d, f :: OptSign(s) && Digits(d) && Digits(f) && w == s + d + [Dot] + f
  }

  /** [+-]? d* . d* [eE] [+-] d+ */
  ghost predicate IsScientific(w: seq<Class>) {
    exists u, d :: IsFloat(u) && Digits(d) && d != [] && w == u + [Exp, Sign] + d
  }

  /** The language of each state. */
  ghost predicate Means(s: State, w: seq<Class>) {
    match s
    case Start => w == []
    case S1 => w == [Sign]
    case Int => IsInt(w)
    case Float => IsFloat(w)
    case S2 => exists u :: IsFloat(u) && w == u + [Exp]
    case Exponent => exists u :: IsFloat(u) && w == u + [Exp, Sign]
    case Scientific => IsScientific(w)
    case Invalid => true
  }

  lemma {:induction false} RunAppend(s: State, u: seq<Class>, v: seq<Class>)
    ensures Run(s, u + v) == Run(Run(s, u), v)
    decreases |v|
  {
    if v == [] {
      assert u + v == u;
    } else {
      assert (u + v)[..|u + v| - 1] == u + v[..|v| - 1];
      RunAppend(s, u, v[..|v| - 1]);
    }
  }

  lemma RunOne(s: State, c: Class)
    ensures Run(s, [c]) == Next(s, c)
  {
    assert [c][..0] == [];
  }

  lemma {:induction false} RunDigits(s: State, d: seq<Class>)
    requires Digits(d)
    requires s.Int? || s.Float? || s.Scientific?
    ensures Run(s, d) == s
  {
    if d != [] {
      RunDigits(s, d[..|d| - 1]);
    }
  }

  lemma RunSomeDigits(s: State, d: seq<Class>)
    requires Digits(d) && d != []
    requires s.Start? || s.S1? || s.Exponent?
    ensures Run(s, d) == if s.Exponent? then Scientific else Int
  {
    assert d == d[..1] + d[1..] && d[..1] == [Digit];
    RunAppend(s, d[..1], d[1..]);
    RunOne(s, Digit);
    RunDigits(Next(s, Digit), d[1..]);
  }

  lemma RunOptSign(s: seq<Class>)
    requires OptSign(s)
    ensures Run(Start, s) == if s == [] then Start else S1
  {
    RunOne(Start, Sign);
  }

  /** Words of a language lead to its state. */
  lemma IntLeads(w: seq<Class>)
    requires IsInt(w)
    ensures Run(Start, w) == Int
  {
    var s, d :| OptSign(s) && Digits(d) && d != [] && w == s + d;
    RunAppend(Start, s, d);
    RunOptSign(s);
    RunSomeDigits(Run(Start, s), d);
  }

  lemma FloatLeads(w: seq<Class>)
    requires IsFloat(w)
    ensures Run(Start, w) == Float
  {
    var s, d, f :| OptSign(s) && Digits(d) && Digits(f) && w == s + d + [Dot] + f;
    RunAppend(Start, s + d + [Dot], f);
    RunAppend(Start, s + d, [Dot]);
    RunAppend(Start, s, d);
    RunOptSign(s);
    if d != [] {
      RunSomeDigits(Run(Start, s), d);
    }
    RunOne(Run(Start, s + d), Dot);
    RunDigits(Float, f);
  }

  lemma ExponentLeads(u: seq<Class>, d: seq<Class>)
    requires IsFloat(u) && Digits(d)
    ensures Run(Start, u + [Exp]) == S2 && Run(Start, u + [Exp, Sign]) == Exponent
    ensures d != [] ==> Run(Start, u + [Exp, Sign] + d) == Scientific
  {
    FloatLeads(u);
    RunAppend(Start, u, [Exp]);
    RunOne(Float, Exp);
    assert u + [Exp, Sign] == u + [Exp] + [Sign];
    RunAppend(Start, u + [Exp], [Sign]);
    RunOne(S2, Sign);
    RunAppend(Start, u + [Exp, Sign], d);
    if d != [] {
      RunSomeDigits(Exponent, d);
    }
  }

  lemma LanguageLeads(s: State, w: seq<Class>)
    requires s != Invalid && Means(s, w)
    ensures Run(Start, w) == s
  {
    match s {
      case Start =>
      case S1 => RunOne(Start, Sign);
      case Int => IntLeads(w);
      case Float => FloatLeads(w);
      case S2 =>
        var u :| IsFloat(u) && w == u + [Exp];
        ExponentLeads(u, []);
      case Exponent =>
        var u :| IsFloat(u) && w == u + [Exp, Sign];
        ExponentLeads(u, []);
      case Scientific =>
        var u, d :| IsFloat(u) && Digits(d) && d != [] && w == u + [Exp, Sign] + d;
        ExponentLeads(u, d);
    }
  }

  /** One more digit keeps a word in its language. */
  lemma MoreDigits(d: seq<Class>)
    requires Digits(d)
    ensures Digits(d + [Digit]) && d + [Digit] != []
  {
  }

  lemma IntMore(w: seq<Class>)
    requires IsInt(w)
    ensures IsInt(w + [Digit])
  {
    var s, d :| OptSign(s) && Digits(d) && d != [] && w == s + d;
    MoreDigits(d);
    assert w + [Digit] == s + (d + [Digit]);
  }

  lemma FloatMore(w: seq<Class>)
    requires IsFloat(w)
    ensures IsFloat(w + [Digit])
  {
    var s, d, f :| OptSign(s) && Digits(d) && Digits(f) && w == s + d + [Dot] + f;
    MoreDigits(f);
    assert w + [Digit] == s + d + [Dot] + (f + [Digit]);
  }

  lemma ScientificMore(w: seq<Class>)
    requires IsScientific(w)
    ensures IsScientific(w + [Digit])
  {
    var u, d :| IsFloat(u) && Digits(d) && d != [] && w == u + [Exp, Sign] + d;
    MoreDigits(d);
    assert w + [Digit] == u + [Exp, Sign] + (d + [Digit]);
  }

  lemma FirstDot(w: seq<Class>)
    requires OptSign(w) || IsInt(w)
    ensures IsFloat(w + [Dot])
  {
    if OptSign(w) {
      assert Digits([]) && w + [Dot] == w + [] + [Dot] + [];
    } else {
      var s, d :| OptSign(s) && Digits(d) && d != [] && w == s + d;
      assert Digits([]) && w + [Dot] == s + d + [Dot] + [];
    }
  }

  lemma FirstDigit(w: seq<Class>)
    requires OptSign(w)
    ensures IsInt(w + [Digit])
  {
    assert Digits([Digit]) && [Digit] != [];
  }

  lemma MeansNext(s: State, w: seq<Class>, c: Class)
    requires Means(s, w)
    ensures Means(Next(s, c), w + [c])
  {
    match s {
      case Start =>
        if c.Digit? { FirstDigit(w); } else if c.Dot? { FirstDot(w); }
      case S1 =>
        if c.Digit? { FirstDigit(w); } else if c.Dot? { FirstDot(w); }
      case Int =>
        if c.Dot? { FirstDot(w); } else if c.Digit? { IntMore(w); }
      case Float =>
        if c.Digit? { FloatMore(w); }
      case S2 =>
        var u :| IsFloat(u) && w == u + [Exp];
        assert w + [Sign] == u + [Exp, Sign];
      case Exponent =>
        var u :| IsFloat(u) && w == u + [Exp, Sign];
        assert Digits([Digit]) && w + [Digit] == u + [Exp, Sign] + [Digit];
      case Scientific =>
        if c.Digit? { ScientificMore(w); }
      case Invalid =>
    }
  }

  lemma {:induction false} RunMeans(w: seq<Class>)
    ensures Means(Run(Start, w), w)
  {
    hide Means;
    if w == [] {
      EmptyMeans();
    } else {
      RunMeans(w[..|w| - 1]);
      MeansNext(Run(Start, w[..|w| - 1]), w[..|w| - 1], w[|w| - 1]);
      assert w == w[..|w| - 1] + [w[|w| - 1]];
    }
  }

  lemma EmptyMeans()
    ensures Means(Start, [])
  {
  }

  /** Each end state stands for exactly its language: the automaton classifies. */
  lemma Classification(w: seq<Class>)
    ensures Run(Start, w) == Int <==> IsInt(w)
    ensures Run(Start, w) == Float <==> IsFloat(w)
    ensures Run(Start, w) == Scientific <==> IsScientific(w)
  {
    RunMeans(w);
    if IsInt(w) { IntLeads(w); }
    if IsFloat(w) { FloatLeads(w); }
    if IsScientific(w) { LanguageLeads(Scientific, w); }
  }

  /** `w` can still be completed to a number. */
  ghost predicate Viable(w: seq<Class>) {
    exists v :: IsInt(w + v) || IsFloat(w + v) || IsScientific(w + v)
  }

  lemma {:induction false} InvalidStays(v: seq<Class>)
    ensures Run(Invalid, v) == Invalid
  {
    if v != [] {
      InvalidStays(v[..|v| - 1]);
    }
  }

  /** The completion that each state is still waiting for. */
  function Completion(s: State): seq<Class> {
    match s
    case Start => [Digit] case S1 => [Digit] case S2 => [Sign, Digit] case Exponent => [Digit]
    case _ => []
  }

  /** The automaton is invalid exactly on words that no number starts with. */
  lemma InvalidIffNotViable(w: seq<Class>)
    ensures Run(Start, w) == Invalid <==> !Viable(w)
  {
    var s := Run(Start, w);
    if s == Invalid {
      forall v ensures !(IsInt(w + v) || IsFloat(w + v) || IsScientific(w + v)) {
        RunAppend(Start, w, v);
        InvalidStays(v);
        Classification(w + v);
      }
    } else {
      var v := Completion(s);
      RunAppend(Start, w, v);
      RunOne(s, Digit);
      if s == S2 {
        assert [Sign, Digit] == [Sign] + [Digit];
        RunAppend(S2, [Sign], [Digit]);
        RunOne(S2, Sign);
        RunOne(Exponent, Digit);
      }
      Classification(w + v);
    }
  }
}
