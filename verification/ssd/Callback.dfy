/** The token callback and the ways generation can end. */
module Callback {
  import opened Decoding

  /** The token callback: it records what it is told and decides, from all of it, whether to go on. */
  class Listener {
    const keepsGoing: seq<Token> -> bool
    var heard: seq<Token>

    constructor (keepsGoing: seq<Token> -> bool)
      ensures this.keepsGoing == keepsGoing && heard == []
    {
      this.keepsGoing := keepsGoing;
      heard := [];
    }

    method Call(t: Token) returns (go: bool)
      modifies this
      ensures heard == old(heard) + [t] && go == keepsGoing(heard)
    {
      heard := heard + [t];
      go := keepsGoing(heard);
    }

    /** After `before` it has been told `added`, each token once and in order, and has agreed to go
        on after each of them, except that a refusal can follow the last. */
    ghost predicate Told(before: seq<Token>, added: seq<Token>, refused: bool)
      reads this
    {
      ToldSince(keepsGoing, before, added, heard, refused)
    }
  }

  ghost predicate ToldSince(keepsGoing: seq<Token> -> bool, before: seq<Token>, added: seq<Token>, heard: seq<Token>,
                            refused: bool)
  {
    && (refused ==> added != [] && !keepsGoing(heard))
    && heard == before + added
    && Agreed(keepsGoing, heard, |before|, |heard| - if refused then 1 else 0)
  }

  ghost predicate Agreed(keepsGoing: seq<Token> -> bool, heard: seq<Token>, from: nat, upto: nat)
  {
    from <= upto <= |heard| && forall k {:trigger heard[..k]} :: from < k <= upto ==> keepsGoing(heard[..k])
  }

  lemma {:induction false} AgreedSnoc(keepsGoing: seq<Token> -> bool, heard: seq<Token>, from: nat, t: Token)
    requires Agreed(keepsGoing, heard, from, |heard|)
    ensures Agreed(keepsGoing, heard + [t], from, |heard|)
    ensures keepsGoing(heard + [t]) ==> Agreed(keepsGoing, heard + [t], from, |heard| + 1)
  {
    var all := heard + [t];
    assert all[..|all|] == all;
    forall k {:trigger all[..k]} | from < k <= |heard| ensures keepsGoing(all[..k]) {
      assert all[..k] == heard[..k];
    }
  }

  /** How an iteration leaves the loop, and why generation ended. */
  datatype Ending = GoOn | FirstIsEos | Eos | Refused | TokenLimit | PassLimit | ContextLimit | CacheFull

  lemma {:induction false} ToldFirst(keepsGoing: seq<Token> -> bool, start: seq<Token>, first: Token,
                                     output: seq<Token>, heard: seq<Token>, refused: bool)
    requires output != [] && output[0] == first && keepsGoing(start + [first])
    requires ToldSince(keepsGoing, start + [first], output[1..], heard, refused)
    ensures ToldSince(keepsGoing, start, output, heard, refused)
  {
    assert start + [first] + output[1..] == start + output;
    assert heard[..|start| + 1] == start + [first];
  }
}
