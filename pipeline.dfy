/** The decoder pipeline's building blocks: the `Maybe` result type, its
    text form, and the stage combinators (identity, composition, the Maybe
    monad's unit and bind, conditionals, and the integer-indexed repetitions
    `Repeat` and `Loop`). A stage is modelled by the function it applies to
    its argument; the input and context every stage receives are passed
    through unchanged by the combinators and are left out. */
module Pipeline {
  import opened Wrappers
  import opened Decimal

  datatype Maybe<T> = Nothing | Just(value: T)

  /** The comparison operator as written: Nothing equals only Nothing, a
      Just equals a Just holding an equal value. */
  predicate Equal<T(==)>(a: Maybe<T>, b: Maybe<T>)
  {
    if a.Nothing? then b.Nothing? else b.Just? && a.value == b.value
  }

  /** The written comparison is value equality. */
  lemma EqualIsEquality<T>(a: Maybe<T>, b: Maybe<T>)
    ensures Equal(a, b) <==> a == b
  {
  }

  /** A `Maybe` variable: the object whose value pointer is null (Nothing)
      or points to a value (Just). */
  class MaybeVar<T> {
    var v: Maybe<T>

    /** The default constructor: Nothing. */
    constructor ()
      ensures v == Nothing
    {
      v := Nothing;
    }

    /** The copy constructor: a new variable holding the same value. */
    constructor Copy(that: MaybeVar<T>)
      ensures v == that.v
    {
      v := that.v;
    }

    /** Exchanges the two variables' values. */
    method Swap(that: MaybeVar<T>)
      modifies this, that
      ensures v == old(that.v) && that.v == old(v)
    {
      var tmp := v;
      v := that.v;
      that.v := tmp;
    }

    /** Assignment: a copy of `that`, swapped in. The source keeps its value,
        also when it is this same variable. */
    method Assign(that: MaybeVar<T>)
      modifies this
      ensures v == old(that.v) && that.v == old(that.v)
    {
      var tmp := new MaybeVar.Copy(that);
      Swap(tmp);
    }

    /** Writing through the reference `Value()` returns; defined only on a
        Just. */
    method SetValue(x: T)
      requires v.Just?
      modifies this
      ensures v == Just(x)
    {
      v := Just(x);
    }
  }

  /** The text of an integer Maybe: "Nothing", or "Just " and the value. */
  function Show(m: Maybe<int>): string
  {
    match m
    case Nothing => "Nothing"
    case Just(x) => "Just " + IntToString(x)
  }

  /** The whitespace-separated words `Show` writes. */
  function Words(m: Maybe<int>): (ws: seq<string>)
    ensures Show(m) == Unwords(ws)
  {
    match m
    case Nothing => ["Nothing"]
    case Just(x) => ["Just", IntToString(x)]
  }

  /** Words joined with single spaces. */
  function Unwords(ws: seq<string>): string
  {
    if ws == [] then "" else if |ws| == 1 then ws[0] else ws[0] + " " + Unwords(ws[1..])
  }

  /** An input stream: the words still to be read, and the fail flag. */
  datatype Stream = Stream(words: seq<string>, failed: bool)

  /** Reading one word: none once the stream has failed or is exhausted,
      which sets the fail flag. */
  function ReadWord(s: Stream): (r: (string, Stream))
    ensures !r.1.failed ==> !s.failed && |s.words| > 0 && r == (s.words[0], Stream(s.words[1..], false))
    ensures r.1.failed ==> r.1.words == s.words && r.0 == ""
  {
    if s.failed || s.words == [] then ("", Stream(s.words, true))
    else (s.words[0], Stream(s.words[1..], false))
  }

  /** The range of the C++ `int` the source reads into. */
  const IntMin := -0x8000_0000
  const IntMax := 0x7fff_ffff

  predicate InInt(x: int)
  {
    IntMin <= x <= IntMax
  }

  /** `i >> t` into an `int`, as C++11 defines it: a number in range is
      stored; one out of range stores the nearest bound and fails the
      stream; a word that is not a number stores 0 and fails the stream. At
      the end of the stream nothing is stored (`None`) and the stream fails. */
  function ReadInt(s: Stream): (r: (Stream, Option<int>))
    ensures r.1.Some? ==> InInt(r.1.value)
    ensures s.failed || s.words == [] ==> r == (Stream(s.words, true), None)
  {
    var (num, s1) := ReadWord(s);
    if s1.failed then (s1, None)
    else match ParseInt(num)
      case Some(x) =>
        if x > IntMax then (Stream(s1.words, true), Some(IntMax))
        else if x < IntMin then (Stream(s1.words, true), Some(IntMin))
        else (s1, Some(x))
      case None => (Stream(s1.words, true), Some(0))
  }

  /** The extraction operator on an integer Maybe: "Nothing" gives Nothing;
      "Just" reads an int, into the held value when the variable is a Just
      (which keeps its value when nothing is stored), and otherwise into a
      fresh `int` that is then wrapped in Just; any other word sets the fail
      flag and leaves the variable as it was. */
  function Read(s: Stream, v: Maybe<int>): (r: (Stream, Maybe<int>))
    ensures s.failed ==> r == (Stream(s.words, true), v)
  {
    var (kind, s1) := ReadWord(s);
    if kind == "Nothing" then (s1, Nothing)
    else if kind == "Just" then
      var (s2, t) := ReadInt(s1);
      if t.Some? then (s2, Just(t.value))
      else if v.Just? then (s2, v)
      else (s2, Just(0))
    else (Stream(s1.words, true), v)
  }

  /** After "Just", a word that is not a number fails the stream and leaves
      Just 0, whatever the variable held; so does the end of the stream on a
      Nothing variable, while a Just variable keeps its value there. */
  lemma ReadJustWithoutNumber(w: string, rest: seq<string>, v: Maybe<int>)
    requires ParseInt(w).None?
    ensures Read(Stream(["Just", w] + rest, false), v) == (Stream(rest, true), Just(0))
    ensures Read(Stream(["Just"], false), v) == (Stream([], true), if v.Just? then v else Just(0))
  {
    assert (["Just", w] + rest)[1..] == [w] + rest;
    assert ([w] + rest)[1..] == rest;
  }

  /** After "Just", a number beyond the range of `int` leaves the nearest
      bound and fails the stream. */
  lemma ReadJustOutOfRange(x: int, rest: seq<string>, v: Maybe<int>)
    requires !InInt(x)
    ensures Read(Stream(["Just", IntToString(x)] + rest, false), v) ==
      (Stream(rest, true), Just(if x > IntMax then IntMax else IntMin))
  {
    IntRoundTrip(x);
    assert (["Just", IntToString(x)] + rest)[1..] == [IntToString(x)] + rest;
    assert ([IntToString(x)] + rest)[1..] == rest;
  }

  /** Reading back what `Show` wrote gives the value written, whatever the
      variable held, and leaves the stream good. */
  lemma ReadShow(m: Maybe<int>, rest: seq<string>, v: Maybe<int>)
    requires m.Just? ==> InInt(m.value)
    ensures Read(Stream(Words(m) + rest, false), v) == (Stream(rest, false), m)
  {
    if m.Just? {
      IntRoundTrip(m.value);
      assert (Words(m) + rest)[1..] == [IntToString(m.value)] + rest;
      assert ([IntToString(m.value)] + rest)[1..] == rest;
    } else {
      assert (Words(m) + rest)[1..] == rest;
    }
  }

  /** A word other than "Nothing" and "Just" fails the stream and leaves the
      variable as it was. */
  lemma ReadOtherFails(w: string, rest: seq<string>, v: Maybe<int>)
    requires w != "Nothing" && w != "Just"
    ensures Read(Stream([w] + rest, false), v) == (Stream(rest, true), v)
  {
    assert ([w] + rest)[1..] == rest;
  }

  /** The written forms of Nothing, Just 0 and Just 2. */
  lemma ShowExamples()
    ensures Show(Nothing) == "Nothing" && Show(Just(0)) == "Just 0" && Show(Just(2)) == "Just 2"
  {
  }

  /** Reading "Nothing Just 1 Just 2 Nothing Fail" one value at a time gives
      Nothing, Just 1, Just 2 and Nothing on a good stream, then fails. */
  lemma ReadExample(v: Maybe<int>)
    ensures var s0 := Stream(["Nothing", "Just", "1", "Just", "2", "Nothing", "Fail"], false);
      var r1 := Read(s0, v); var r2 := Read(r1.0, r1.1); var r3 := Read(r2.0, r2.1);
      var r4 := Read(r3.0, r3.1); var r5 := Read(r4.0, r4.1);
      r1.1 == Nothing && !r1.0.failed && r2.1 == Just(1) && !r2.0.failed &&
      r3.1 == Just(2) && !r3.0.failed && r4.1 == Nothing && !r4.0.failed && r5.0.failed
  {
    ReadShow(Nothing, ["Just", "1", "Just", "2", "Nothing", "Fail"], v);
    ReadShow(Just(1), ["Just", "2", "Nothing", "Fail"], Nothing);
    ReadShow(Just(2), ["Nothing", "Fail"], Just(1));
    ReadShow(Nothing, ["Fail"], Just(2));
    ReadOtherFails("Fail", [], Nothing);
    ExampleWords();
  }

  /** The example input, as the words of the values it holds. */
  lemma ExampleWords()
    ensures Words(Nothing) + ["Just", "1", "Just", "2", "Nothing", "Fail"] == ["Nothing", "Just", "1", "Just", "2", "Nothing", "Fail"]
    ensures Words(Just(1)) + ["Just", "2", "Nothing", "Fail"] == ["Just", "1", "Just", "2", "Nothing", "Fail"]
    ensures Words(Just(2)) + ["Nothing", "Fail"] == ["Just", "2", "Nothing", "Fail"]
    ensures Words(Nothing) + ["Fail"] == ["Nothing", "Fail"]
  {
    assert IntToString(1) == "1" && IntToString(2) == "2";
  }

  /** The identity stage. */
  function Identity<T>(): T -> T
  {
    x => x
  }

  /** `f` first, then `g` on its output. */
  function Compose<A, B, C>(f: A -> B, g: B -> C): A -> C
  {
    x => g(f(x))
  }

  /** The monadic identity: the input wrapped in Just. */
  function Unit<T>(): T -> Maybe<T>
  {
    x => Just(x)
  }

  /** `f` first; Nothing is passed on, a Just's value goes to `g`. */
  function Bind<A, B, C>(f: A -> Maybe<B>, g: B -> Maybe<C>): A -> Maybe<C>
  {
    x => match f(x) case Nothing => Nothing case Just(y) => g(y)
  }

  /** `t` where `p` holds, `e` elsewhere. */
  function Cond<A, B>(p: A -> bool, t: A -> B, e: A -> B): A -> B
  {
    x => if p(x) then t(x) else e(x)
  }

  /** `f` where `p` holds; elsewhere the input passes through. */
  function On<A>(f: A -> A, p: A -> bool): A -> A
  {
    Cond(p, f, Identity())
  }

  /** `f` where `p` holds; elsewhere the input passes through as Just. */
  function When<A>(f: A -> Maybe<A>, p: A -> bool): A -> Maybe<A>
  {
    Cond(p, f, Unit())
  }

  /** F(1), then F(2), ..., then F(n); the identity for n = 0. */
  function Repeat<A>(n: nat, F: int -> (A -> A)): A -> A
  {
    if n == 0 then Identity() else Compose(Repeat(n - 1, F), F(n))
  }

  /** F(1) bound to F(2) ... bound to F(n); the unit for n = 0. */
  function Loop<A>(n: nat, F: int -> (A -> Maybe<A>)): A -> Maybe<A>
  {
    if n == 0 then Unit() else Bind(Loop(n - 1, F), F(n))
  }

  /** Composition is associative, so the two bracketings of a chain agree. */
  lemma ComposeAssociative<A, B, C, D>(f: A -> B, g: B -> C, h: C -> D, x: A)
    ensures Compose(Compose(f, g), h)(x) == Compose(f, Compose(g, h))(x)
  {
  }

  /** The identity is a unit of composition on both sides. */
  lemma ComposeIdentity<A, B>(f: A -> B, x: A)
    ensures Compose(Identity(), f)(x) == f(x) && Compose(f, Identity())(x) == f(x)
  {
  }

  /** Bind with a stage that gives Nothing gives Nothing; otherwise it is
      the second stage on the first one's value. */
  lemma BindCases<A, B, C>(f: A -> Maybe<B>, g: B -> Maybe<C>, x: A)
    ensures f(x).Nothing? ==> Bind(f, g)(x).Nothing?
    ensures f(x).Just? ==> Bind(f, g)(x) == g(f(x).value)
  {
  }

  /** The monad laws: unit is a left and right identity of bind, and bind
      is associative. */
  lemma MonadLaws<A, B, C, D>(f: A -> Maybe<B>, g: B -> Maybe<C>, h: C -> Maybe<D>, k: A -> Maybe<A>, y: B, x: A)
    ensures Bind(Unit(), g)(y) == g(y)
    ensures Bind(k, Unit())(x) == k(x)
    ensures Bind(Bind(f, g), h)(x) == Bind(f, Bind(g, h))(x)
  {
    match f(x)
    case Nothing =>
    case Just(b) =>
  }

  /** Once a loop gives Nothing, every longer loop gives Nothing: the chain
      stops at the first failing stage. */
  lemma {:induction false} LoopStopsAtNothing<A>(k: nat, n: nat, F: int -> (A -> Maybe<A>), x: A)
    requires k <= n && Loop(k, F)(x).Nothing?
    ensures Loop(n, F)(x).Nothing?
  {
    if k < n {
      LoopStopsAtNothing(k, n - 1, F, x);
    }
  }

  /** The test stages: add one, double, parity tests, add n, and add n
      when the sum stays below 60. */
  function Add1(): int -> int { x => x + 1 }
  function Times2(): int -> int { x => x * 2 }
  function IsEven(): int -> bool { x => x % 2 == 0 }
  function IsOdd(): int -> bool { x => x % 2 != 0 }
  function AddN(n: int): int -> int { x => x + n }
  function AddNTop60(n: int): int -> Maybe<int> { x => if x + n < 60 then Just(x + n) else Nothing }

  /** 0 + 1 + ... + n. */
  function Tri(n: nat): nat
  {
    if n == 0 then 0 else Tri(n - 1) + n
  }

  /** Add1 on odd inputs always yields an even number, and Add1 on even
      inputs always an odd one. */
  lemma OnParity(x: int)
    ensures Compose(On(Add1(), IsOdd()), IsEven())(x)
    ensures Compose(On(Add1(), IsEven()), IsOdd())(x)
  {
    Parity(x);
    assert On(Add1(), IsOdd())(x) == if x % 2 != 0 then x + 1 else x;
    assert On(Add1(), IsEven())(x) == if x % 2 == 0 then x + 1 else x;
  }

  /** A number and its successor have opposite parities. */
  lemma Parity(x: int)
    ensures x % 2 == 0 || x % 2 == 1
    ensures (x + 1) % 2 == 1 - x % 2
    ensures (x * 2) % 2 == 0
  {
  }

  /** The chained conditional stages compute: add one, double when even,
      add one when odd; bracketed as ((add one, double) then add one). */
  lemma ChainedConditions(x: int)
    ensures Compose(Compose(Add1(), On(Times2(), IsEven())), On(Add1(), IsOdd()))(x) == AddedIfOdd(DoubledIfEven(x + 1))
  {
    var f, g, h := Add1(), On(Times2(), IsEven()), On(Add1(), IsOdd());
    assert f(x) == x + 1;
    ComposeAt(f, g, x);
    ComposeAt(Compose(f, g), h, x);
    DoubleWhenEven(x + 1);
    AddWhenOdd(DoubledIfEven(x + 1));
  }

  /** The same chain bracketed as (add one, then (double, add one)). */
  lemma ChainedConditionsRight(x: int)
    ensures Compose(Add1(), Compose(On(Times2(), IsEven()), On(Add1(), IsOdd())))(x) == AddedIfOdd(DoubledIfEven(x + 1))
  {
    var f, g, h := Add1(), On(Times2(), IsEven()), On(Add1(), IsOdd());
    assert f(x) == x + 1;
    ComposeAt(f, Compose(g, h), x);
    ComposeAt(g, h, x + 1);
    DoubleWhenEven(x + 1);
    AddWhenOdd(DoubledIfEven(x + 1));
  }

  /** When the doubling-then-adding stage is itself conditioned on oddness,
      it only ever adds one: an odd number is never doubled. */
  lemma ChainedConditionsNested(x: int)
    ensures Compose(Add1(), On(Compose(On(Times2(), IsEven()), Add1()), IsOdd()))(x) == AddedIfOdd(x + 1)
  {
    assert Add1()(x) == x + 1;
    ComposeAt(Add1(), On(Compose(On(Times2(), IsEven()), Add1()), IsOdd()), x);
    NestedOnOdd(x + 1);
  }

  /** An integer doubled when it is even. */
  function DoubledIfEven(v: int): int
  {
    if v % 2 == 0 then v * 2 else v
  }

  /** An integer plus one when it is odd. */
  function AddedIfOdd(v: int): int
  {
    if v % 2 != 0 then v + 1 else v
  }

  /** Applying a composition applies its two stages in turn. */
  lemma ComposeAt<A, B, C>(f: A -> B, g: B -> C, x: A)
    ensures Compose(f, g)(x) == g(f(x))
  {
  }

  /** Doubling on even inputs: an even input is doubled, an odd one kept. */
  lemma DoubleWhenEven(v: int)
    ensures On(Times2(), IsEven())(v) == DoubledIfEven(v)
  {
  }

  /** Adding one on odd inputs. */
  lemma AddWhenOdd(v: int)
    ensures On(Add1(), IsOdd())(v) == AddedIfOdd(v)
  {
  }

  /** Double-when-even then add one, run on odd inputs only: an odd input
      is never doubled, so it just gains one. */
  lemma NestedOnOdd(v: int)
    ensures On(Compose(On(Times2(), IsEven()), Add1()), IsOdd())(v) == AddedIfOdd(v)
  {
    if v % 2 != 0 {
      DoubleWhenEven(v);
    }
  }

  /** A pair of integers and the test stage on its first component. */
  function First(): ((int, int)) -> int { (p: (int, int)) => p.0 }
  function IsZero(): int -> bool { x => x == 0 }

  /** The composed test holds exactly when the first component is zero. */
  lemma FirstIsZero(p: (int, int))
    ensures Compose(First(), IsZero())(p) <==> p.0 == 0
  {
  }

  /** Add1 then Unit, run only on odd inputs: Just the input, plus one when
      it is odd; bound after a stage that gives Nothing: Nothing. */
  lemma WhenOdd(x: int)
    ensures When(Compose(Add1(), Unit()), IsOdd())(x) == Just(if x % 2 != 0 then x + 1 else x)
    ensures Bind((y: int) => Nothing, When(Compose(Add1(), Unit()), IsOdd()))(x) == Nothing
  {
  }

  /** The stages F(1), ..., F(n) applied to `x` one after the other. */
  function Run<A>(n: nat, F: int -> (A -> A), x: A): A
  {
    if n == 0 then x else F(n)(Run(n - 1, F, x))
  }

  /** With no stages, Repeat passes its input through. */
  lemma RepeatZero<A>(F: int -> (A -> A), x: A)
    ensures Repeat(0, F)(x) == x
  {
  }

  /** Repeat's last stage is F(n), applied to what the first n - 1 give. */
  lemma RepeatLast<A>(n: nat, F: int -> (A -> A), x: A)
    requires n > 0
    ensures Repeat(n, F)(x) == F(n)(Repeat(n - 1, F)(x))
  {
  }

  lemma {:induction false} RepeatRunsPositive<A>(n: nat, F: int -> (A -> A), x: A)
    ensures n > 0 ==> Repeat(n, F)(x) == Run(n, F, x)
  {
    if n > 0 {
      if n > 1 {
        RepeatRunsPositive(n - 1, F, x);
      }
      RepeatLast(n, F, x);
    }
  }

  /** Repeat applies F(1), then F(2), ..., then F(n). */
  lemma RepeatRuns<A>(n: nat, F: int -> (A -> A), x: A)
    ensures Repeat(n, F)(x) == Run(n, F, x)
  {
    if n == 0 {
      RepeatZero(F, x);
    } else {
      RepeatRunsPositive(n, F, x);
    }
  }

  /** Adding 1, 2, ..., n in turn adds their sum. */
  lemma {:induction false} RunAddN(n: nat, x: int)
    ensures Run(n, AddN, x) == x + Tri(n)
  {
    if n > 0 {
      RunAddN(n - 1, x);
    }
  }

  /** Repeat<n, AddN> adds 1 + 2 + ... + n; for n = 10 that is 55. */
  lemma RepeatAddN(n: nat, x: int)
    ensures Repeat(n, AddN)(x) == x + Tri(n)
  {
    RepeatRuns(n, AddN, x);
    RunAddN(n, x);
  }

  /** Repeat<10, AddN> from 0 gives 55. */
  lemma RepeatAddNExample()
    ensures Repeat(10, AddN)(0) == 55
  {
    TriTen();
    RepeatAddN(10, 0);
  }

  lemma TriTen()
    ensures Tri(10) == 55
  {
  }

  /** Adding 1, ..., n while staying below 60: Just the sum when the total
      stays below 60, else Nothing; Loop<10, AddNTop60> gives Just 55 from
      0 and Nothing from 5. */
  lemma {:induction false} LoopAddNTop60(n: nat, x: int)
    requires n >= 1
    ensures Loop(n, AddNTop60)(x) == if x + Tri(n) < 60 then Just(x + Tri(n)) else Nothing
  {
    if n > 1 {
      LoopAddNTop60(n - 1, x);
    }
  }

  lemma LoopAddNTop60Example()
    ensures Loop(10, AddNTop60)(0) == Just(55)
  {
    LoopAddNTop60(10, 0);
    TriTen();
  }

  lemma LoopAddNTop60Overflow()
    ensures Loop(10, AddNTop60)(5) == Nothing
  {
    LoopAddNTop60(10, 5);
    TriTen();
  }

  /** A composition stage that builds its two stages on first use. */
  class ComposeStage<A, B, C> {
    const f: A -> B
    const g: B -> C
    var fBuilt: bool
    var gBuilt: bool

    constructor (f: A -> B, g: B -> C)
      ensures this.f == f && this.g == g && !fBuilt && !gBuilt
    {
      this.f, this.g := f, g;
      fBuilt, gBuilt := false, false;
    }

    method Apply(x: A) returns (y: C)
      modifies this
      ensures y == Compose(f, g)(x) && fBuilt && gBuilt
    {
      fBuilt, gBuilt := true, true;
      var t := f(x);
      y := g(t);
    }
  }

  /** A bind stage: the second stage is built, and run, only once the
      first has given a Just. */
  class BindStage<A, B, C> {
    const f: A -> Maybe<B>
    const g: B -> Maybe<C>
    var fBuilt: bool
    var gBuilt: bool

    constructor (f: A -> Maybe<B>, g: B -> Maybe<C>)
      ensures this.f == f && this.g == g && !fBuilt && !gBuilt
    {
      this.f, this.g := f, g;
      fBuilt, gBuilt := false, false;
    }

    method Apply(x: A) returns (y: Maybe<C>)
      modifies this
      ensures y == Bind(f, g)(x) && fBuilt
      ensures gBuilt == (old(gBuilt) || f(x).Just?)
    {
      fBuilt := true;
      var t := f(x);
      if t.Nothing? {
        return Nothing;
      }
      gBuilt := true;
      y := g(t.value);
    }
  }

  /** A conditional stage: the predicate is always built; of the two
      branches only the one taken is built. */
  class CondStage<A, B> {
    const p: A -> bool
    const t: A -> B
    const e: A -> B
    var pBuilt: bool
    var tBuilt: bool
    var eBuilt: bool

    constructor (p: A -> bool, t: A -> B, e: A -> B)
      ensures this.p == p && this.t == t && this.e == e && !pBuilt && !tBuilt && !eBuilt
    {
      this.p, this.t, this.e := p, t, e;
      pBuilt, tBuilt, eBuilt := false, false, false;
    }

    method Apply(x: A) returns (y: B)
      modifies this
      ensures y == Cond(p, t, e)(x) && pBuilt
      ensures tBuilt == (old(tBuilt) || p(x)) && eBuilt == (old(eBuilt) || !p(x))
    {
      pBuilt := true;
      if p(x) {
        tBuilt := true;
        y := t(x);
      } else {
        eBuilt := true;
        y := e(x);
      }
    }
  }
}
