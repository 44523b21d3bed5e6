/**
 * POSIX paths as names between separators, and the lexical operations of std::filesystem that the
 * Project uses on them. A trailing separator counts as an empty last name.
 */
module Paths {
  import opened Bytes
  import opened Sequences

  type Name = bytes

  const DOT: Name := [0x2E]
  const DOT_DOT: Name := [0x2E, 0x2E]

  datatype Path = Path(rooted: bool, parts: seq<Name>, trailing: bool)

  const EMPTY := Path(false, [], false)
  const ROOT := Path(true, [], false)

  /** A dot goes away, a dot-dot takes the name before it, and above the root there is nothing. */
  function Step(rooted: bool, stack: seq<Name>, part: Name): (r: seq<Name>) {
    if part == DOT then stack
    else if part == DOT_DOT then
      if stack != [] && Last(stack) != DOT_DOT then Init(stack) else if rooted then stack else stack + [part]
    else stack + [part]
  }

  function Fold(rooted: bool, stack: seq<Name>, parts: seq<Name>): (r: seq<Name>)
    decreases |parts|
  {
    if parts == [] then stack else Fold(rooted, Step(rooted, stack, parts[0]), parts[1..])
  }

  /** The text ends in a separator, once dots are taken away. */
  predicate EndsOpen(p: Path) { p.trailing || (p.parts != [] && (Last(p.parts) == DOT || Last(p.parts) == DOT_DOT)) }

  /** lexically_normal: section 31.12.6.2 of ISO/IEC 14882:2020. */
  function Normal(p: Path): (r: Path) {
    var stack := Fold(p.rooted, [], p.parts);
    if stack == [] then (if p.rooted then ROOT else if p.parts == [] then EMPTY else Path(false, [DOT], false))
    else Path(p.rooted, stack, EndsOpen(p) && Last(stack) != DOT_DOT)
  }

  function Parent(p: Path): (r: Path) {
    if p.trailing || p.parts == [] then p.(trailing := false) else p.(parts := Init(p.parts))
  }

  /** The last name, which is empty behind a separator. */
  function Filename(p: Path): (r: Path) {
    if p.trailing || p.parts == [] then EMPTY else Path(false, [Last(p.parts)], false)
  }

  function Join(p: Path, q: Path): (r: Path) {
    if q.rooted then q
    else if q.parts == [] then p.(trailing := p.parts != [])
    else Path(p.rooted, p.parts + q.parts, q.trailing)
  }

  /** A path given by what is not empty. */
  predicate Proper(p: Path) { (p.trailing ==> p.parts != []) && (p.rooted || p.parts != []) }

  // ----- laws -----

  lemma {:induction false} FoldConcat(rooted: bool, stack: seq<Name>, a: seq<Name>, b: seq<Name>)
    ensures Fold(rooted, stack, a + b) == Fold(rooted, Fold(rooted, stack, a), b)
    decreases |a|
  {
    hide Step;
    if a == [] {
      assert a + b == b;
    } else {
      assert (a + b)[1..] == a[1..] + b;
      FoldConcat(rooted, Step(rooted, stack, a[0]), a[1..], b);
    }
  }

  lemma FoldSnoc(rooted: bool, stack: seq<Name>, parts: seq<Name>, last: Name)
    ensures Fold(rooted, stack, parts + [last]) == Step(rooted, Fold(rooted, stack, parts), last)
  {
    hide Step;
    FoldConcat(rooted, stack, parts, [last]);
    assert [last][1..] == [];
  }

  /** No dots, and dot-dots only at the start of a path that has no root. */
  predicate Plain(rooted: bool, stack: seq<Name>) {
    && (forall i | 0 <= i < |stack| :: stack[i] != DOT)
    && (forall i | 0 <= i < |stack| && stack[i] == DOT_DOT :: !rooted && forall j | 0 <= j < i :: stack[j] == DOT_DOT)
  }

  lemma StepIsPlain(rooted: bool, stack: seq<Name>, part: Name)
    requires Plain(rooted, stack)
    ensures Plain(rooted, Step(rooted, stack, part))
  {
    var next := Step(rooted, stack, part);
    if part == DOT_DOT && next == stack + [part] {
      assert stack == [] || Last(stack) == DOT_DOT;
      forall i | 0 <= i < |stack| ensures stack[i] == DOT_DOT {
        assert stack[|stack| - 1] == DOT_DOT;
      }
    }
  }

  lemma {:induction false} FoldIsPlain(rooted: bool, stack: seq<Name>, parts: seq<Name>)
    requires Plain(rooted, stack)
    ensures Plain(rooted, Fold(rooted, stack, parts))
    decreases |parts|
  {
    hide Step, Plain;
    if parts != [] {
      StepIsPlain(rooted, stack, parts[0]);
      FoldIsPlain(rooted, Step(rooted, stack, parts[0]), parts[1..]);
    }
  }

  /** Folding names behind a root sees through their own normal form. */
  lemma FoldThroughStep(base: seq<Name>, stack: seq<Name>, part: Name)
    requires Plain(false, stack) && Plain(true, base)
    ensures Fold(true, Fold(true, base, stack), [part]) == Fold(true, base, Step(false, stack, part))
  {
    hide Fold;
    var inner := Fold(true, base, stack);
    FoldSnoc(true, base, stack, part);
    FoldSnoc(true, [], [], part);
    OneFold(inner, part);
    if part == DOT_DOT && stack != [] && Last(stack) != DOT_DOT {
      var before := Fold(true, base, Init(stack));
      assert stack == Init(stack) + [Last(stack)];
      FoldSnoc(true, base, Init(stack), Last(stack));
      assert Last(stack) != DOT;
      assert inner == before + [Last(stack)];
      assert Init(inner) == before;
    }
  }

  lemma OneFold(stack: seq<Name>, part: Name)
    ensures Fold(true, stack, [part]) == Step(true, stack, part)
  {
    hide Step;
    assert [part][1..] == [];
  }

  lemma {:induction false} FoldThrough(base: seq<Name>, stack: seq<Name>, parts: seq<Name>)
    requires Plain(false, stack) && Plain(true, base)
    ensures Fold(true, Fold(true, base, stack), parts) == Fold(true, base, Fold(false, stack, parts))
    decreases |parts|
  {
    hide Step, Plain;
    if parts != [] {
      FoldThroughStep(base, stack, parts[0]);
      OneFold(Fold(true, base, stack), parts[0]);
      StepIsPlain(false, stack, parts[0]);
      FoldThrough(base, Step(false, stack, parts[0]), parts[1..]);
    }
  }

  lemma {:induction false} FoldOfPlain(rooted: bool, stack: seq<Name>, parts: seq<Name>)
    requires Plain(rooted, stack + parts)
    ensures Fold(rooted, stack, parts) == stack + parts
    decreases |parts|
  {
    if parts == [] {
      assert stack + parts == stack;
    } else {
      assert stack + parts == (stack + [parts[0]]) + parts[1..];
      assert (stack + parts)[|stack|] == parts[0];
      if stack != [] && parts[0] == DOT_DOT {
        assert (stack + parts)[|stack| - 1] == DOT_DOT;
      }
      FoldOfPlain(rooted, stack + [parts[0]], parts[1..]);
    }
  }

  lemma {:induction false} LastDecides(rooted: bool, parts: seq<Name>)
    requires parts != []
    ensures var stack := Fold(rooted, [], parts);
            (Last(parts) != DOT && Last(parts) != DOT_DOT ==> stack != [] && Last(stack) == Last(parts))
  {
    assert parts == Init(parts) + [Last(parts)];
    FoldSnoc(rooted, [], Init(parts), Last(parts));
  }

  /** Normalising twice is normalising once. */
  lemma NormalIdempotent(p: Path)
    requires Proper(p)
    ensures Normal(Normal(p)) == Normal(p) && Proper(Normal(p)) && Normal(p).rooted == p.rooted
  {
    hide Step, Fold;
    var stack := Fold(p.rooted, [], p.parts);
    FoldIsPlain(p.rooted, [], p.parts);
    if stack == [] {
      FoldSnoc(false, [], [], DOT);
      assert [] + [DOT] == [DOT];
      DotVanishes();
    } else {
      assert [] + stack == stack;
      FoldOfPlain(p.rooted, [], stack);
      assert stack[|stack| - 1] != DOT;
    }
  }

  lemma DotVanishes()
    ensures Fold(false, [], [DOT]) == [] && Fold(true, [], []) == []
  {
    assert [DOT][1..] == [];
  }

  /** A locator may be normalised before it is joined to the directory of the file that declares it. */
  lemma NormalThroughJoin(base: Path, q: Path)
    requires base.rooted && Plain(true, base.parts) && !q.rooted && q.parts != []
    ensures Normal(Join(base, Normal(q))) == Normal(Join(base, q))
  {
    hide Step, Fold, Plain;
    var n := Normal(q);
    var stack := Fold(false, [], q.parts);
    FoldConcat(true, [], base.parts, q.parts);
    FoldConcat(true, [], base.parts, n.parts);
    PlainFolds(base.parts);
    EmptyIsPlain();
    FoldThrough(base.parts, [], q.parts);
    FoldNothing(base.parts);
    LastDecides(false, q.parts);
    RootedEnd(base, q);
    RootedEnd(base, n);
    if stack == [] {
      DotFolds(base.parts);
    } else {
      LastOfPlain(q.parts);
    }
  }

  lemma PlainFolds(parts: seq<Name>)
    requires Plain(true, parts)
    ensures Fold(true, [], parts) == parts
  {
    assert [] + parts == parts;
    FoldOfPlain(true, [], parts);
  }

  lemma EmptyIsPlain()
    ensures Plain(false, []) && Plain(true, [])
  {
  }

  lemma FoldNothing(base: seq<Name>)
    ensures Fold(true, base, []) == base
  {
  }

  lemma DotFolds(base: seq<Name>)
    ensures Fold(true, base, [DOT]) == base
  {
    assert [DOT][1..] == [];
  }

  lemma LastOfPlain(parts: seq<Name>)
    requires Fold(false, [], parts) != []
    ensures Last(Fold(false, [], parts)) != DOT
  {
    FoldIsPlain(false, [], parts);
  }

  /** Behind a root the normal form depends on the folded names and on how the path ends. */
  lemma RootedEnd(base: Path, q: Path)
    requires base.rooted && !q.rooted && q.parts != []
    ensures var stack := Fold(true, [], base.parts + q.parts);
            Normal(Join(base, q)) == if stack == [] then ROOT else Path(true, stack, EndsOpen(q))
  {
    var stack := Fold(true, [], base.parts + q.parts);
    FoldIsPlain(true, [], base.parts + q.parts);
    assert Last(base.parts + q.parts) == Last(q.parts);
    if stack != [] {
      assert stack[|stack| - 1] != DOT_DOT;
    }
  }

  /** The directory of a normal absolute path is normal and absolute. */
  lemma ParentIsPlain(p: Path)
    requires p.rooted && Plain(true, p.parts)
    ensures Parent(p).rooted && Plain(true, Parent(p).parts)
  {
  }

  lemma NormalIsPlain(p: Path)
    requires p.rooted
    ensures Normal(p).rooted && Plain(true, Normal(p).parts)
  {
    FoldIsPlain(true, [], p.parts);
  }

  // ----- what the operations mean -----

  /** A path is its directory joined to its last name, which is empty behind a separator. */
  lemma ParentAndName(p: Path)
    requires p.trailing ==> p.parts != []
    ensures Join(Parent(p), Filename(p)) == p && !Parent(p).trailing
    ensures Filename(p) == EMPTY <==> p.trailing || p.parts == []
    ensures |Filename(p).parts| <= 1
  {
  }

  predicate IsName(n: Name) { n != DOT && n != DOT_DOT }

  lemma StepName(rooted: bool, stack: seq<Name>, a: seq<Name>, n: Name)
    requires IsName(n)
    ensures Fold(rooted, stack, a + [n, DOT_DOT]) == Fold(rooted, stack, a)
  {
    assert a + [n, DOT_DOT] == (a + [n]) + [DOT_DOT];
    FoldSnoc(rooted, stack, a + [n], DOT_DOT);
    FoldSnoc(rooted, stack, a, n);
  }

  /** Taking a dot away changes nothing but that a last one leaves a separator. */
  lemma NormalDropsDot(p: Path, a: seq<Name>, b: seq<Name>)
    requires p.parts == a + [DOT] + b && (p.rooted || a + b != [])
    ensures Normal(p) == Normal(Path(p.rooted, a + b, p.trailing || b == []))
  {
    hide Fold, Step;
    FoldConcat(p.rooted, [], a + [DOT], b);
    FoldSnoc(p.rooted, [], a, DOT);
    FoldConcat(p.rooted, [], a, b);
    DotStep(p.rooted, Fold(p.rooted, [], a));
    EndsAlike(p, Path(p.rooted, a + b, p.trailing || b == []), b);
  }

  lemma DotStep(rooted: bool, stack: seq<Name>)
    ensures Step(rooted, stack, DOT) == stack
  {
  }

  predicate EndsWith(s: seq<Name>, b: seq<Name>) { |b| <= |s| && s[|s| - |b|..] == b }

  /** Paths that end with the same names end alike. */
  lemma EndsAlike(p: Path, q: Path, b: seq<Name>)
    requires b != [] ==> EndsWith(p.parts, b) && EndsWith(q.parts, b) && p.trailing == q.trailing
    requires b == [] ==> EndsOpen(p) && q.trailing
    ensures EndsOpen(p) == EndsOpen(q)
  {
    if b != [] {
      assert Last(p.parts) == Last(b) && Last(q.parts) == Last(b);
    }
  }

  /** A name and the dot-dot behind it go away together. */
  lemma NormalDropsName(p: Path, a: seq<Name>, n: Name, b: seq<Name>)
    requires IsName(n) && p.parts == a + [n, DOT_DOT] + b && (p.rooted || a + b != [])
    ensures Normal(p) == Normal(Path(p.rooted, a + b, p.trailing || b == []))
  {
    hide Fold, Step;
    FoldConcat(p.rooted, [], a + [n, DOT_DOT], b);
    StepName(p.rooted, [], a, n);
    FoldConcat(p.rooted, [], a, b);
    if b == [] {
      assert Last(p.parts) == DOT_DOT;
    }
    EndsAlike(p, Path(p.rooted, a + b, p.trailing || b == []), b);
  }

  /** Nothing is above the root. */
  lemma NormalAtRoot(p: Path, b: seq<Name>)
    requires p.rooted && p.parts == [DOT_DOT] + b
    ensures Normal(p) == Normal(Path(true, b, p.trailing))
  {
    hide Fold, Step;
    FoldConcat(true, [], [DOT_DOT], b);
    OneFold([], DOT_DOT);
    RootStep();
    FoldNothing([]);
    if b != [] {
      assert Last(p.parts) == Last(b);
    }
  }

  lemma RootStep()
    ensures Step(true, [], DOT_DOT) == []
  {
  }

  /** What has nothing to take away is normal. */
  lemma NormalOfPlain(p: Path)
    requires Proper(p) && Plain(p.rooted, p.parts) && (p.trailing ==> Last(p.parts) != DOT_DOT)
    ensures Normal(p) == p
  {
    hide Fold, Step;
    FoldOfPlain(p.rooted, [], p.parts);
    assert [] + p.parts == p.parts;
    if p.parts != [] {
      assert p.parts[|p.parts| - 1] != DOT;
    }
  }

  /** A relative path that comes to nothing is the dot. */
  lemma NormalOfNothing(n: Name, trailing: bool)
    requires IsName(n)
    ensures Normal(Path(false, [n, DOT_DOT], trailing)) == Path(false, [DOT], false)
    ensures Normal(Path(false, [DOT], trailing)) == Path(false, [DOT], false)
  {
    assert [] + [n, DOT_DOT] == [n, DOT_DOT];
    StepName(false, [], [], n);
    DotVanishes();
  }

  /** So many steps up. */
  function Ups(k: nat): (r: seq<Name>) { seq(k, _ => DOT_DOT) }

  function Left(n: nat, k: nat): (r: nat) { if n < k then 0 else n - k }

  lemma {:induction false} FoldUps(stack: seq<Name>, k: nat)
    requires Plain(true, stack)
    ensures Fold(true, stack, Ups(k)) == stack[..Left(|stack|, k)]
    decreases k
  {
    hide Fold, Step;
    if k == 0 {
      FoldNothing(stack);
    } else {
      assert Ups(k) == Ups(k - 1) + [DOT_DOT];
      FoldUps(stack, k - 1);
      FoldSnoc(true, stack, Ups(k - 1), DOT_DOT);
      UpStep(stack[..Left(|stack|, k - 1)]);
    }
  }

  lemma UpStep(stack: seq<Name>)
    requires Plain(true, stack)
    ensures Step(true, stack, DOT_DOT) == stack[..Left(|stack|, 1)]
  {
    assert stack != [] ==> stack[|stack| - 1] != DOT_DOT;
  }

  /** Names behind so many steps up, seen from a directory. */
  lemma NormalFrom(base: Path, k: nat, names: seq<Name>, trailing: bool)
    requires base.rooted && Plain(true, base.parts) && names != [] && forall i | 0 <= i < |names| :: IsName(names[i])
    ensures Normal(Join(base, Path(false, Ups(k) + names, trailing)))
            == Path(true, base.parts[..Left(|base.parts|, k)] + names, trailing)
  {
    hide Fold, Step;
    var q := Path(false, Ups(k) + names, trailing);
    var kept := base.parts[..Left(|base.parts|, k)];
    PlainFolds(base.parts);
    FoldConcat(true, [], base.parts, q.parts);
    FoldConcat(true, base.parts, Ups(k), names);
    FoldUps(base.parts, k);
    FoldOfPlain(true, kept, names);
    RootedEnd(base, q);
    assert Last(q.parts) == names[|names| - 1];
  }
}
