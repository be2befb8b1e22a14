/** Which dictionary entries decoding a message looks up. */
module DictionaryIds {
  import opened Words
  import opened Logtype
  import opened Message
  import opened Sequences

  /** The entry that the placeholder c looks up for the variable v, if any. */
  function LookedUpBy(c: char, v: int): seq<nat>
    requires IsInt64(v)
  {
    if c == DICTIONARY_PLACEHOLDER then [Int64ToWord(v)] else []
  }

  /** The IDs that decoding the first k placeholders looks up, in order. */
  function LookedUp(l: Logtype, vars: seq<int>, k: nat): seq<nat>
    requires l.WellFormed() && AllInt64(vars) && k <= |l.positions| && NumVariables(l, k) <= |vars|
    decreases k
  {
    if k == 0 then []
    else
      var c := l.value[l.positions[k - 1]];
      LookedUp(l, vars, k - 1)
      + (if c == ESCAPE then [] else LookedUpBy(c, vars[NumVariables(l, k - 1)]))
  }

  /** What the first k placeholders look up does not change when text or variables are added. */
  lemma {:induction false} LookedUpExtends(l: Logtype, vars: seq<int>, m: Logtype, vars': seq<int>, k: nat)
    requires l.WellFormed() && m.WellFormed() && k <= |l.positions| && NumVariables(l, k) <= |vars|
    requires l.value <= m.value && l.positions <= m.positions
    requires AllInt64(vars) && AllInt64(vars') && vars <= vars'
    ensures NumVariables(m, k) == NumVariables(l, k) && LookedUp(m, vars', k) == LookedUp(l, vars, k)
    decreases k
  {
    if k != 0 {
      LookedUpExtends(l, vars, m, vars', k - 1);
      var position := l.positions[k - 1];
      assert m.positions[k - 1] == position && m.value[position] == l.value[position];
    }
  }

  /** Everything a stored message looks up. */
  function AllLookedUp(l: Logtype, vars: seq<int>): seq<nat>
    requires l.WellFormed() && AllInt64(vars) && NumVariables(l, |l.positions|) <= |vars|
  {
    LookedUp(l, vars, |l.positions|)
  }

  /** One more placeholder looks up one more entry or none. */
  lemma LookedUpNext(l: Logtype, m: Logtype, c: char, vars: seq<int>, v: int)
    requires l.WellFormed() && AllInt64(vars) && IsInt64(v) && NumVariables(l, |l.positions|) == |vars|
    requires Extends(l, m, c) && c != ESCAPE
    ensures m.WellFormed() && NumVariables(m, |m.positions|) == |vars| + 1
    ensures AllLookedUp(m, vars + [v]) == AllLookedUp(l, vars) + LookedUpBy(c, v)
  {
    ExtendsMeans(l, m, c);
    LastOfPush(vars, v);
    LookedUpExtends(l, vars, m, vars + [v], |l.positions|);
  }

  lemma EscapeLooksUpNothing(l: Logtype, vars: seq<int>)
    requires l.WellFormed() && AllInt64(vars) && NumVariables(l, |l.positions|) <= |vars|
    ensures var m := l.AddEscape();
            && m.WellFormed() && NumVariables(m, |m.positions|) == NumVariables(l, |l.positions|)
            && AllLookedUp(m, vars) == AllLookedUp(l, vars)
  {
    var m := l.AddEscape();
    ExtendsMeans(l, m, ESCAPE);
    LookedUpExtends(l, vars, m, vars, |l.positions|);
    NothingAdded(AllLookedUp(l, vars));
  }

  lemma ConstantLooksUpNothing(l: Logtype, vars: seq<int>, c: string)
    requires l.WellFormed() && AllInt64(vars) && NumVariables(l, |l.positions|) <= |vars|
    ensures var m := l.AddConstant(c);
            && m.WellFormed() && NumVariables(m, |m.positions|) == NumVariables(l, |l.positions|)
            && AllLookedUp(m, vars) == AllLookedUp(l, vars)
  {
    LookedUpExtends(l, vars, l.AddConstant(c), vars, |l.positions|);
  }

  /** Constant text looks up nothing, whatever characters it holds. */
  lemma {:induction false} StaticTextLooksUpNothing(l: Logtype, vars: seq<int>, c: string)
    requires l.WellFormed() && AllInt64(vars) && NumVariables(l, |l.positions|) <= |vars|
    ensures var m := l.AddStaticText(c);
            && m.WellFormed() && NumVariables(m, |m.positions|) == NumVariables(l, |l.positions|)
            && AllLookedUp(m, vars) == AllLookedUp(l, vars)
    decreases |c|
  {
    if c != "" {
      var front, last := c[..|c| - 1], c[|c| - 1];
      StaticTextLooksUpNothing(l, vars, front);
      var m := l.AddStaticText(front);
      if NeedsEscape(last) {
        EscapeLooksUpNothing(m, vars);
        ConstantLooksUpNothing(m.AddEscape(), vars, [last]);
      } else {
        ConstantLooksUpNothing(m, vars, [last]);
      }
    }
  }
}
