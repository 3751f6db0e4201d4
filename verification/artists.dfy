/**
 * The artist column of a play record: the provider's artist names joined
 * with ", ", and the split that recovers them.
 */
module Artists {

  const Separator: string := ", "

  /** The names in order, with the separator between consecutive ones. */
  function Join(names: seq<string>): (r: string)
    ensures |names| >= 1 ==> names[0] <= r
  {
    if |names| == 0 then ""
    else if |names| == 1 then names[0]
    else names[0] + Separator + Join(names[1..])
  }

  /**
   * Splitting a string at every ", ", left to right; like Python's
   * `s.split(", ")` it yields at least one (possibly empty) piece.
   */
  function Split(s: string): (pieces: seq<string>)
    ensures |pieces| >= 1
    decreases |s|
  {
    if |s| == 0 then [""]
    else if |s| >= 2 && s[0] == ',' && s[1] == ' ' then [""] + Split(s[2..])
    else
      var rest := Split(s[1..]);
      [[s[0]] + rest[0]] + rest[1..]
  }

  predicate CommaFree(name: string)
  {
    ',' !in name
  }

  lemma {:induction false} SplitCommaFree(a: string)
    requires CommaFree(a)
    ensures Split(a) == [a]
    decreases |a|
  {
    if |a| > 0 {
      SplitCommaFree(a[1..]);
      assert [a[0]] + a[1..] == a;
    }
  }

  lemma {:induction false} SplitAfterPiece(a: string, b: string)
    requires CommaFree(a)
    ensures Split(a + Separator + b) == [a] + Split(b)
    decreases |a|
  {
    var s := a + Separator + b;
    if |a| == 0 {
      assert s[2..] == b;
    } else {
      assert s[1..] == a[1..] + Separator + b;
      SplitAfterPiece(a[1..], b);
      assert [a[0]] + a[1..] == a;
    }
  }

  /** The joined artist string determines the names, in order, when no name holds a comma. */
  lemma {:induction false} SplitJoin(names: seq<string>)
    requires |names| >= 1
    requires forall k :: 0 <= k < |names| ==> CommaFree(names[k])
    ensures Split(Join(names)) == names
  {
    if |names| == 1 {
      SplitCommaFree(names[0]);
    } else {
      SplitJoin(names[1..]);
      SplitAfterPiece(names[0], Join(names[1..]));
      assert [names[0]] + names[1..] == names;
    }
  }

  /** Extending the first name extends the joined string at its front. */
  lemma {:induction false} ExtendFirst(c: string, names: seq<string>)
    requires |names| >= 1
    ensures Join([c + names[0]] + names[1..]) == c + Join(names)
  {
    var ext := [c + names[0]] + names[1..];
    assert ext[1..] == names[1..];
  }

  /** Joining the pieces of any string gives that string back. */
  lemma {:induction false} JoinSplit(s: string)
    ensures Join(Split(s)) == s
    decreases |s|
  {
    if |s| == 0 {
    } else if |s| >= 2 && s[0] == ',' && s[1] == ' ' {
      JoinSplit(s[2..]);
      var rest := Split(s[2..]);
      assert ([""] + rest)[1..] == rest;
      assert s == Separator + s[2..];
    } else {
      JoinSplit(s[1..]);
      ExtendFirst([s[0]], Split(s[1..]));
      assert s == [s[0]] + s[1..];
    }
  }

  /**
   * The join is not injective: no artists and one artist named "" store the
   * same string, and so do one artist "X, Y" and the two artists "X" and "Y".
   */
  lemma JoinCollisions()
    ensures Join([]) == Join([""]) && Split(Join([])) == [""]
    ensures Join(["X, Y"]) == Join(["X", "Y"])
  {
    assert ["X", "Y"][1..] == ["Y"];
  }

  /** Python's str.join accumulates left to right: adding a name appends the separator and the name. */
  lemma {:induction false} JoinSnoc(names: seq<string>, name: string)
    requires |names| >= 1
    ensures Join(names + [name]) == Join(names) + Separator + name
  {
    if |names| == 1 {
      assert (names + [name])[1..] == [name];
    } else {
      assert (names + [name])[1..] == names[1..] + [name];
      JoinSnoc(names[1..], name);
    }
  }
}
