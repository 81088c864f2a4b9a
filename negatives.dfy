/** The negative-number fix of `Calculator::solve`: a `-` token at an inspected
    position is glued to the token after it, and the remaining tokens are
    renumbered from 0. */
module Negatives {
  import opened Wrappers
  import Lexical

  function Min(a: int, b: int): int
  {
    if a <= b then a else b
  }

  /** The tokens the fix produces from position `x` of `t` on. Position `x` is
      inspected: a `-` there is glued to the next token and the next position
      inspected is `x + 3`; otherwise it is `x + 2`. A `-` in the last position
      stays a token of its own: the code writes `-` followed by the missing
      token, which reads as empty. */
  function FixFrom(t: seq<string>, x: nat): seq<string>
    decreases |t| - x
  {
    if x >= |t| then []
    else if t[x] == "-" then
      if x + 1 < |t| then ["-" + t[x + 1]] + t[x + 2..Min(x + 3, |t|)] + FixFrom(t, x + 3)
      else ["-"]
    else t[x..Min(x + 2, |t|)] + FixFrom(t, x + 2)
  }

  /** The tokens after the fix. */
  function Fix(t: seq<string>): seq<string>
  {
    FixFrom(t, 0)
  }

  /** `array_values`: the tokens still present, in order of their positions. */
  function Values(slots: seq<Option<string>>): seq<string>
  {
    if slots == [] then []
    else
      var last := slots[|slots| - 1];
      Values(slots[..|slots| - 1]) + (if last.Some? then [last.value] else [])
  }

  lemma {:induction false} ValuesSnoc(slots: seq<Option<string>>, o: Option<string>)
    ensures Values(slots + [o]) == Values(slots) + (if o.Some? then [o.value] else [])
  {
    assert (slots + [o])[..|slots|] == slots;
  }

  /** The non-fixing part of the loop: keeping two present tokens keeps them. */
  lemma {:induction false} ValuesKeep(slots: seq<Option<string>>, t: seq<string>, x: nat, y: nat)
    requires x <= y <= |slots| == |t|
    requires forall k :: x <= k < y ==> slots[k] == Some(t[k])
    ensures Values(slots[..y]) == Values(slots[..x]) + t[x..y]
    decreases y - x
  {
    if x < y {
      ValuesKeep(slots, t, x, y - 1);
      assert slots[..y] == slots[..y - 1] + [slots[y - 1]];
      ValuesSnoc(slots[..y - 1], slots[y - 1]);
      assert t[x..y] == t[x..y - 1] + [t[y - 1]];
    }
  }

  /** The loop of lines 145-159, on the token array with removed positions
      marked `None`, followed by `array_values`: the result is `Fix`. */
  method FixNegatives(tokens: seq<string>) returns (fixed: seq<string>)
    ensures fixed == Fix(tokens)
  {
    var count := |tokens|;
    var slots: seq<Option<string>> := seq(count, k requires 0 <= k < count => Some(tokens[k]));
    var x := 0;
    while x < count
      invariant 0 <= x <= count + 2
      invariant count <= |slots| <= count + 1
      invariant x < count ==> |slots| == count
      invariant forall k :: x <= k < count ==> slots[k] == Some(tokens[k])
      invariant Values(slots[..Min(x, |slots|)]) + FixFrom(tokens, x) == Fix(tokens)
      invariant x >= count ==> Min(x, |slots|) == |slots|
    {
      var prefix := slots[..x];
      if slots[x] == Some("-") {
        if x + 1 < |slots| {
          slots := slots[x + 1 := Some("-" + slots[x + 1].value)];
        } else {
          slots := slots + [Some("-")];
        }
        slots := slots[x := None];
        MergeStep(prefix, slots, tokens, x);
        x := x + 1;
      } else {
        KeepStep(slots, tokens, x);
      }
      x := x + 2;
    }
    assert slots[..|slots|] == slots;
    fixed := Values(slots);
  }

  /** The part of the loop that glues nothing: the two tokens from `x` are kept. */
  lemma {:induction false} KeepStep(slots: seq<Option<string>>, t: seq<string>, x: nat)
    requires x < |t| == |slots| && t[x] != "-"
    requires forall k :: x <= k < |t| ==> slots[k] == Some(t[k])
    ensures Values(slots[..Min(x + 2, |slots|)]) + FixFrom(t, x + 2) == Values(slots[..x]) + FixFrom(t, x)
  {
    ValuesKeep(slots, t, x, Min(x + 2, |t|));
  }

  /** The fixing part of the loop: a removed `-` and the glued token after it. */
  lemma {:induction false} MergeStep(prefix: seq<Option<string>>, slots: seq<Option<string>>, t: seq<string>, x: nat)
    requires x < |t| && t[x] == "-" && |prefix| == x && x + 1 <= |t|
    requires |slots| == (if x + 1 < |t| then |t| else |t| + 1)
    requires slots[..x] == prefix && slots[x] == None
    requires x + 1 < |t| ==> slots[x + 1] == Some("-" + t[x + 1])
    requires x + 1 == |t| ==> slots[x + 1] == Some("-")
    requires forall k :: x + 2 <= k < |t| ==> slots[k] == Some(t[k])
    ensures Values(slots[..Min(x + 3, |slots|)]) + FixFrom(t, x + 3) == Values(prefix) + FixFrom(t, x)
  {
    var n := |t|;
    MergeHead(prefix, slots, x);
    if x + 1 < n {
      var head := ["-" + t[x + 1]] + t[x + 2..Min(x + 3, n)];
      assert FixFrom(t, x) == head + FixFrom(t, x + 3);
      if x + 2 < n {
        assert slots[..x + 3] == slots[..x + 2] + [slots[x + 2]];
        ValuesSnoc(slots[..x + 2], slots[x + 2]);
      }
    } else {
      assert FixFrom(t, x) == ["-"];
    }
  }

  /** A removed slot and the slot after it add that slot's token. */
  lemma {:induction false} MergeHead(prefix: seq<Option<string>>, slots: seq<Option<string>>, x: nat)
    requires |prefix| == x && x + 2 <= |slots| && slots[..x] == prefix
    requires slots[x] == None && slots[x + 1].Some?
    ensures Values(slots[..x + 2]) == Values(prefix) + [slots[x + 1].value]
  {
    assert slots[..x + 1] == prefix + [None];
    ValuesSnoc(prefix, None);
    assert slots[..x + 2] == slots[..x + 1] + [slots[x + 1]];
    ValuesSnoc(slots[..x + 1], slots[x + 1]);
  }

  lemma {:induction false} ConcatCons(p: string, ps: seq<string>)
    ensures Lexical.Concat([p] + ps) == p + Lexical.Concat(ps)
  {
    assert ([p] + ps)[1..] == ps;
  }

  /** The text of tokens `x` on, when `x` holds a `-` glued to token `x + 1`. */
  lemma {:induction false} GlueConcat(t: seq<string>, x: nat, m: nat)
    requires x + 1 < |t| && t[x] == "-" && m == Min(x + 3, |t|)
    ensures Lexical.Concat(t[x..]) == ("-" + t[x + 1]) + Lexical.Concat(t[x + 2..m]) + Lexical.Concat(t[m..])
  {
    assert t[x..] == [t[x]] + ([t[x + 1]] + (t[x + 2..m] + t[m..]));
    ConcatCons(t[x], [t[x + 1]] + (t[x + 2..m] + t[m..]));
    ConcatCons(t[x + 1], t[x + 2..m] + t[m..]);
    Lexical.ConcatAppend(t[x + 2..m], t[m..]);
  }

  /** The fix neither loses nor reorders characters: glued back together, the
      tokens after it are the tokens before it. */
  lemma {:induction false} FixFromConcat(t: seq<string>, x: nat)
    ensures Lexical.Concat(FixFrom(t, x)) == Lexical.Concat(t[Min(x, |t|)..])
    decreases |t| - x
  {
    if x < |t| {
      if t[x] == "-" && x + 1 < |t| {
        var m := Min(x + 3, |t|);
        FixFromConcat(t, x + 3);
        assert FixFrom(t, x) == ["-" + t[x + 1]] + t[x + 2..m] + FixFrom(t, x + 3);
        GlueCase(t, x, m, FixFrom(t, x + 3));
      } else if t[x] == "-" {
        assert t[x..] == ["-"];
        ConcatCons("-", []);
      } else {
        var m := Min(x + 2, |t|);
        FixFromConcat(t, x + 2);
        assert FixFrom(t, x) == t[x..m] + FixFrom(t, x + 2);
        KeepCase(t, x, m, FixFrom(t, x + 2));
      }
    }
  }

  /** The text of a glued `-`, the token kept after it and the rest. */
  lemma {:induction false} GlueCase(t: seq<string>, x: nat, m: nat, rest: seq<string>)
    requires x + 1 < |t| && t[x] == "-" && m == Min(x + 3, |t|)
    requires Lexical.Concat(rest) == Lexical.Concat(t[m..])
    ensures Lexical.Concat(["-" + t[x + 1]] + t[x + 2..m] + rest) == Lexical.Concat(t[x..])
  {
    var glued := ["-" + t[x + 1]];
    Lexical.ConcatAppend(glued + t[x + 2..m], rest);
    ConcatCons("-" + t[x + 1], t[x + 2..m]);
    GlueConcat(t, x, m);
  }

  /** The text of the tokens kept from `x` to `m` and the rest. */
  lemma {:induction false} KeepCase(t: seq<string>, x: nat, m: nat, rest: seq<string>)
    requires x <= m <= |t| && Lexical.Concat(rest) == Lexical.Concat(t[m..])
    ensures Lexical.Concat(t[x..m] + rest) == Lexical.Concat(t[x..])
  {
    Lexical.ConcatAppend(t[x..m], rest);
    assert t[x..] == t[x..m] + t[m..];
    Lexical.ConcatAppend(t[x..m], t[m..]);
  }

  lemma {:induction false} FixConcat(t: seq<string>)
    ensures Lexical.Concat(Fix(t)) == Lexical.Concat(t)
  {
    FixFromConcat(t, 0);
    assert t[0..] == t;
  }

  /** With no `-` at an even position, nothing is glued and the fix changes nothing. */
  lemma {:induction false} FixFromIdentity(t: seq<string>, x: nat)
    requires x % 2 == 0
    requires forall k :: x <= k < |t| && k % 2 == 0 ==> t[k] != "-"
    ensures FixFrom(t, x) == t[Min(x, |t|)..]
    decreases |t| - x
  {
    if x < |t| {
      var m := Min(x + 2, |t|);
      FixFromIdentity(t, x + 2);
      assert t[x..] == t[x..m] + t[m..];
    }
  }

  lemma {:induction false} FixIdentity(t: seq<string>)
    requires forall k :: 0 <= k < |t| && k % 2 == 0 ==> t[k] != "-"
    ensures Fix(t) == t
  {
    FixFromIdentity(t, 0);
  }

  /** A leading `-` is glued to the first number (line 177: `-50` gives `-50`). */
  lemma {:induction false} FixLeadingMinus(t: seq<string>)
    requires |t| >= 2 && t[0] == "-"
    ensures Fix(t) != [] && Fix(t)[0] == "-" + t[1]
  {
  }

  /** The fix never adds tokens. */
  lemma {:induction false} FixFromLength(t: seq<string>, x: nat)
    ensures |FixFrom(t, x)| <= |t| - Min(x, |t|)
    decreases |t| - x
  {
    if x < |t| {
      if t[x] == "-" && x + 1 < |t| {
        FixFromLength(t, x + 3);
      } else if t[x] != "-" {
        FixFromLength(t, x + 2);
      }
    }
  }

  lemma {:induction false} FixNegativeNumber()
    ensures Fix(["-", "50"]) == ["-50"]
  {
    var t := ["-", "50"];
    assert FixFrom(t, 3) == [] && t[2..2] == [];
    assert "-" + "50" == "-50";
  }
}
