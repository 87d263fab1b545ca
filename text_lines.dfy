/**
  Text as lines: `Lines` is what consecutive `AppendLine` calls build (with "\n"
  as the newline), `Split` is `string.Split('\n')` and `Join` is
  `string.Join('\n', ...)`.
*/
module TextLines {

  predicate NoNewline(s: string)
  {
    forall i :: 0 <= i < |s| ==> s[i] != '\n'
  }

  predicate AllNoNewline(ls: seq<string>)
  {
    forall i :: 0 <= i < |ls| ==> NoNewline(ls[i])
  }

  lemma AllNoNewlineConcat(a: seq<string>, b: seq<string>, c: seq<string>)
    requires AllNoNewline(a) && AllNoNewline(b) && AllNoNewline(c)
    ensures AllNoNewline(a + b + c)
  {
    forall i | 0 <= i < |a + b + c|
      ensures NoNewline((a + b + c)[i])
    {
      if i < |a| {
        assert (a + b + c)[i] == a[i];
      } else if i < |a| + |b| {
        assert (a + b + c)[i] == b[i - |a|];
      } else {
        assert (a + b + c)[i] == c[i - |a| - |b|];
      }
    }
  }

  /** The three parts of a concatenation, cut out again. */
  lemma SliceThree<T>(p: seq<T>, a: seq<T>, b: seq<T>, c: seq<T>)
    requires p == a + b + c
    ensures p[..|a|] == a && p[|a|..|p| - |c|] == b && p[|p| - |c|..] == c
  {
  }

  /** Each line followed by a newline. */
  function Lines(ls: seq<string>): (s: string)
    ensures |s| >= |ls|
  {
    if ls == [] then "" else ls[0] + "\n" + Lines(ls[1..])
  }

  /** The lines joined with a newline between neighbours. */
  function Join(ls: seq<string>): string
  {
    if ls == [] then ""
    else if |ls| == 1 then ls[0]
    else ls[0] + "\n" + Join(ls[1..])
  }

  /**
    The pieces between newlines: `n` newlines give `n + 1` pieces, so text that
    ends in a newline ends in an empty piece.
  */
  function Split(s: string): (r: seq<string>)
    ensures |r| > 0 && AllNoNewline(r)
  {
    if s == [] then [""]
    else
      var rest := Split(s[1..]);
      if s[0] == '\n' then [""] + rest
      else [[s[0]] + rest[0]] + rest[1..]
  }

  /** Text without a newline is one piece. */
  lemma {:induction false} SplitSingle(a: string)
    requires NoNewline(a)
    ensures Split(a) == [a]
  {
    if a != [] {
      SplitSingle(a[1..]);
      assert [a[0]] + a[1..] == a;
    }
  }

  /** Splitting at the first newline. */
  lemma {:induction false} SplitAt(a: string, b: string)
    requires NoNewline(a)
    ensures Split(a + "\n" + b) == [a] + Split(b)
  {
    if a == [] {
      assert a + "\n" + b == "\n" + b;
      assert ("\n" + b)[1..] == b;
    } else {
      var s := a + "\n" + b;
      assert s[0] == a[0] && s[1..] == a[1..] + "\n" + b;
      SplitAt(a[1..], b);
      assert [a[0]] + a[1..] == a;
    }
  }

  /** Splitting newline-terminated lines gives the lines back, and one empty piece after the last newline. */
  lemma {:induction false} SplitLines(ls: seq<string>)
    requires AllNoNewline(ls)
    ensures Split(Lines(ls)) == ls + [""]
  {
    if ls != [] {
      SplitLines(ls[1..]);
      SplitAt(ls[0], Lines(ls[1..]));
      assert [ls[0]] + (ls[1..] + [""]) == ls + [""];
    }
  }

  /** Splitting a join of at least one line gives the lines back. */
  lemma {:induction false} SplitJoin(ls: seq<string>)
    requires AllNoNewline(ls) && ls != []
    ensures Split(Join(ls)) == ls
  {
    if |ls| == 1 {
      SplitSingle(ls[0]);
    } else {
      SplitJoin(ls[1..]);
      SplitAt(ls[0], Join(ls[1..]));
      assert [ls[0]] + ls[1..] == ls;
    }
  }

  /** Splitting lines joined by newlines and followed by a newline and more text. */
  lemma {:induction false} SplitJoinThen(ls: seq<string>, rest: string)
    requires AllNoNewline(ls) && ls != []
    ensures Split(Join(ls) + "\n" + rest) == ls + Split(rest)
  {
    if |ls| == 1 {
      SplitAt(ls[0], rest);
    } else {
      SplitJoinThen(ls[1..], rest);
      assert Join(ls) + "\n" + rest == ls[0] + "\n" + (Join(ls[1..]) + "\n" + rest);
      SplitAt(ls[0], Join(ls[1..]) + "\n" + rest);
      assert [ls[0]] + (ls[1..] + Split(rest)) == ls + Split(rest);
    }
  }

  lemma {:induction false} LinesAppend(a: seq<string>, b: seq<string>)
    ensures Lines(a + b) == Lines(a) + Lines(b)
  {
    if a == [] {
      assert a + b == b;
    } else {
      assert (a + b)[1..] == a[1..] + b;
      LinesAppend(a[1..], b);
    }
  }

  lemma LinesSingle(l: string)
    ensures Lines([l]) == l + "\n"
  {
    assert [l][1..] == [];
  }
}
