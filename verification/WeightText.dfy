/** The texts of weight files, as keepalived reads them and as they are read back. */
module WeightText {
  import opened Snapshot
  import opened XmlScan

  const WEIGHT_ACTIVE := "0"
  const WEIGHT_DRAINING := "-1"
  const WEIGHT_DISABLED := "-2147483648"

  /** `BackendState::from_weight_str` */
  function FromWeightText(s: string): BackendState
  {
    var value := Trim(s);
    if value == WEIGHT_ACTIVE then Active
    else if value == WEIGHT_DRAINING then Draining
    else if value == WEIGHT_DISABLED then Disabled
    else Unknown(value)
  }

  /** What is written for a state; a state that nobody writes stands for its own text. */
  function ToWeightText(state: BackendState): string
  {
    match state
    case Active => WEIGHT_ACTIVE
    case Draining => WEIGHT_DRAINING
    case Disabled => WEIGHT_DISABLED
    case Unknown(value) => value
  }

  lemma TrimsToItself(s: string)
    requires s != "" && !IsSpace(s[0]) && !IsSpace(s[|s| - 1])
    ensures Trim(s) == s
  {
  }

  lemma {:induction false} SpaceInFront(a: string, s: string)
    requires AllSpace(a) && s != "" && !IsSpace(s[0])
    ensures TrimStart(a + s) == s
  {
    if a == "" {
      assert a + s == s;
    } else {
      assert (a + s)[1..] == a[1..] + s;
      SpaceInFront(a[1..], s);
    }
  }

  lemma {:induction false} SpaceBehind(s: string, b: string)
    requires AllSpace(b) && s != "" && !IsSpace(s[|s| - 1])
    ensures TrimEnd(s + b) == s
  {
    if b == "" {
      assert s + b == s;
    } else {
      assert (s + b)[..|s + b| - 1] == s + b[..|b| - 1];
      SpaceBehind(s, b[..|b| - 1]);
    }
  }

  /** Each state that is written is read back, whatever white space stands around its text. */
  lemma WrittenIsRead(state: BackendState, a: string, b: string)
    requires !state.Unknown? && AllSpace(a) && AllSpace(b)
    ensures FromWeightText(a + ToWeightText(state) + b) == state
  {
    var s := ToWeightText(state);
    assert |WEIGHT_ACTIVE| == 1 && |WEIGHT_DRAINING| == 2 && |WEIGHT_DISABLED| == 11;
    assert a + s + b == a + (s + b);
    SpaceInFront(a, s + b);
    SpaceBehind(s, b);
  }

  /** The texts themselves: full weight, draining, and the least 32-bit number for a disabled backend. */
  lemma TextsAre(s: string)
    ensures Trim(s) == "0" <==> FromWeightText(s) == Active
    ensures Trim(s) == "-1" <==> FromWeightText(s) == Draining
    ensures Trim(s) == "-2147483648" <==> FromWeightText(s) == Disabled
  {
    assert |"0"| == 1 && |"-1"| == 2 && |"-2147483648"| == 11;
  }
}
