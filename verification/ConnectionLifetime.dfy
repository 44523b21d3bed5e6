/** Move-only holders of a reference-counted connection: whatever is moved, each reference has one holder. */
module ConnectionLifetime {
  import opened Protocol

  class Counted {
    var references: nat
    var destroyed: bool

    /** A connection of the protocol whose references are those of this object. */
    ghost function In(k: Connection): (r: Connection)
      reads this
    {
      k.(references := references)
    }

    constructor ()
      ensures references == 1 && !destroyed
    {
      references, destroyed := 1, false;
    }

    method Retain()
      requires !destroyed
      modifies this
      ensures references == old(references) + 1 && !destroyed
    {
      references := references + 1;
    }

    /** The last release destroys the connection, on whatever thread it happens. */
    method Release()
      requires !destroyed && references > 0
      modifies this
      ensures references == old(references) - 1 && destroyed == (references == 0)
      ensures forall encode: Encoder, c, k: Connection | k.io.ShutReleasing? ::
        IoNext(encode, c, old(In(k)), IoAct.Erase) == Stay(In(k).(io := Erased))
    {
      references := references - 1;
      if references == 0 {
        destroyed := true;
      }
    }

    method Hold() returns (token: Token)
      requires !destroyed && references > 0
      modifies this
      ensures fresh(token) && token.target == this && references == old(references) + 1 && !destroyed
      ensures forall encode: Encoder, c, k: Connection | k.io.Cleared? ::
        IoNext(encode, c, old(In(k)), IoAct.Hold) == Stay(In(k).(io := Holding(k.io.request, k.io.ask)))
    {
      Retain();
      token := new Token(this);
    }
  }

  /** A lifetime token, or the owner of a connection, which moves in the same way. */
  class Token {
    var target: Counted?

    constructor (target: Counted?)
      ensures this.target == target
    {
      this.target := target;
    }

    ghost predicate Valid()
      reads this, target
    {
      target != null ==> !target.destroyed && target.references > 0
    }

    /** Construction by move leaves the source empty. */
    constructor FromMove(other: Token)
      modifies other
      ensures target == old(other.target) && other.target == null
    {
      target := other.target;
      new;
      other.target := null;
    }

    method Reset()
      requires Valid()
      modifies this, target
      ensures target == null
      ensures old(target) != null ==>
        old(target).references == old(target.references) - 1 && old(target).destroyed == (old(target).references == 0)
    {
      if target != null {
        var value := target;
        target := null;
        value.Release();
      }
    }

    /**
     * Assignment by move releases what was held and takes over what the other holds; assigning a
     * token to itself changes nothing.
     */
    method MoveAssign(other: Token)
      requires Valid() && other.Valid()
      requires this != other && target != null && target == other.target ==> target.references >= 2
      modifies this, other, target
      ensures if this == other then target == old(target)
              && (target != null ==> target.references == old(target.references))
              else target == old(other.target) && other.target == null
      ensures this != other && old(target) != null ==>
        old(target).references == old(target.references) - 1 && old(target).destroyed == (old(target).references == 0)
      ensures Valid()
    {
      if this != other {
        Reset();
        target := other.target;
        other.target := null;
      }
    }
  }

  /** The holders of a connection among some tokens. */
  ghost function Holders(tokens: seq<Token>, c: Counted): (r: nat)
    reads tokens
  {
    if tokens == [] then 0 else Holders(tokens[1..], c) + if tokens[0].target == c then 1 else 0
  }

  /** Every reference has exactly one holder before a move, and after it. */
  ghost predicate Accounted(tokens: seq<Token>, c: Counted)
    reads tokens, c
  {
    c.references == Holders(tokens, c) && c.destroyed == (c.references == 0)
  }

  /** Moving between two tokens of a connection's keeps references and holders equal. */
  method MoveConserves(to: Token, from: Token, rest: seq<Token>, c: Counted)
    requires to != from && to !in rest && from !in rest
    requires Accounted([to, from] + rest, c) && to.Valid() && from.Valid()
    requires to.target == null || to.target == c
    modifies to, from, to.target
    ensures Accounted([to, from] + rest, c)
  {
    TwoMore(to, from, rest, c);
    to.MoveAssign(from);
    TwoMore(to, from, rest, c);
  }

  lemma TwoMore(a: Token, b: Token, rest: seq<Token>, c: Counted)
    ensures Holders([a, b] + rest, c)
         == Holders(rest, c) + (if a.target == c then 1 else 0) + (if b.target == c then 1 else 0)
  {
    assert ([a, b] + rest)[1..] == [b] + rest && ([b] + rest)[1..] == rest;
  }
}
