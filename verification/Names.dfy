/** Domain names as text: `split('.')`, `join(".")` and ASCII lower-casing. */
module Names {
  import opened Data

  function FirstDot(s: Text): (i: nat)
    ensures i <= |s|
    ensures i < |s| ==> s[i] == DOT
    ensures forall k | 0 <= k < i :: s[k] != DOT
  {
    if s == [] || s[0] == DOT then 0 else 1 + FirstDot(s[1..])
  }

  /** `str::split('.')`: never empty, the empty name has one empty label. */
  function Labels(s: Text): (ls: seq<Text>)
    ensures |ls| >= 1
    decreases |s|
  {
    var i := FirstDot(s);
    if i == |s| then [s] else [s[..i]] + Labels(s[i + 1..])
  }

  /** `[&str]::join(".")` */
  function Join(ls: seq<Text>): Text
  {
    if |ls| == 0 then [] else if |ls| == 1 then ls[0] else ls[0] + [DOT] + Join(ls[1..])
  }

  function LowerByte(b: byte): byte {
    if 65 <= b <= 90 then b + 32 else b
  }

  /** `to_lowercase` on ASCII text. */
  function Lower(s: Text): (r: Text)
    ensures |r| == |s|
  {
    seq(|s|, i requires 0 <= i < |s| => LowerByte(s[i]))
  }

  function LowerAll(ls: seq<Text>): (r: seq<Text>)
    ensures |r| == |ls|
  {
    if ls == [] then [] else [Lower(ls[0])] + LowerAll(ls[1..])
  }

  /** The labels a message can carry: 1 to 63 bytes each (section 3.1 of RFC 1035). */
  predicate GoodName(s: Text)
  {
    forall l | l in Labels(s) :: 1 <= |l| <= 63
  }

  lemma {:induction false} JoinLabels(s: Text)
    ensures Join(Labels(s)) == s
    decreases |s|
  {
    var i := FirstDot(s);
    if i < |s| {
      JoinLabels(s[i + 1..]);
      assert Labels(s)[1..] == Labels(s[i + 1..]);
      assert s == s[..i] + [DOT] + s[i + 1..];
    }
  }

  lemma SplitLabels(s: Text)
    ensures var i := FirstDot(s);
      Labels(s) == if i == |s| then [s] else [s[..i]] + Labels(s[i + 1..])
  {
    hide FirstDot;
  }

  lemma {:induction false} JoinAppend(ls: seq<Text>, l: Text)
    ensures Join(ls + [l]) == if ls == [] then l else Join(ls) + [DOT] + l
  {
    if |ls| == 0 {
      assert ls + [l] == [l];
    } else {
      JoinAppend(ls[1..], l);
      assert (ls + [l])[1..] == ls[1..] + [l];
      if |ls| > 1 {
        assert ls[0] + [DOT] + (Join(ls[1..]) + [DOT] + l) == ls[0] + [DOT] + Join(ls[1..]) + [DOT] + l;
      }
    }
  }

  lemma LowerConcat(a: Text, b: Text)
    ensures Lower(a + b) == Lower(a) + Lower(b)
  {
  }

  /** Lower-casing label by label is lower-casing the whole name. */
  lemma {:induction false} JoinLower(ls: seq<Text>)
    ensures Join(LowerAll(ls)) == Lower(Join(ls))
  {
    if |ls| == 1 {
      assert LowerAll(ls) == [Lower(ls[0])];
    } else if |ls| > 1 {
      JoinLower(ls[1..]);
      assert LowerAll(ls)[1..] == LowerAll(ls[1..]);
      LowerConcat(ls[0], [DOT]);
      LowerConcat(ls[0] + [DOT], Join(ls[1..]));
      assert Lower([DOT]) == [DOT];
    }
  }

  /** The first label of a good name is good, and so is what follows the dot. */
  lemma FirstLabel(s: Text)
    requires GoodName(s)
    ensures var i := FirstDot(s);
      && 1 <= i <= 63
      && (i == |s| ==> Labels(s) == [s] && s[..i] == s)
      && (i < |s| ==> GoodName(s[i + 1..]))
  {
    var i := FirstDot(s);
    assert Labels(s)[0] == s[..i];
    if i == |s| {
      assert s[..i] == s;
    } else {
      assert Labels(s)[1..] == Labels(s[i + 1..]);
      assert forall l | l in Labels(s[i + 1..]) :: l in Labels(s);
    }
  }

  /** A name that cannot be written has a bad first label, or a good one and then a rest that cannot
      be written. */
  lemma BadSplit(s: Text)
    requires !GoodName(s)
    ensures var i := FirstDot(s); 1 <= i <= 63 ==> i < |s| && !GoodName(s[i + 1..])
  {
    hide Labels, FirstDot;
    var i := FirstDot(s);
    SplitLabels(s);
    var bad :| bad in Labels(s) && !(1 <= |bad| <= 63);
    if i < |s| {
      assert bad == s[..i] || bad in Labels(s[i + 1..]);
    }
  }
}
