/**
 Splitting stream text into lines the way JavaScript's `text.split('\n')` does:
 the pieces between newlines, including empty ones, always at least one piece,
 the last piece being the (possibly empty) text after the final newline.
 */
module Lines {

  const Newline: char := '\n'

  /** `s.split('\n')`. */
  function Split(s: string): (r: seq<string>)
    ensures |r| >= 1
    ensures forall k :: 0 <= k < |r| ==> Newline !in r[k]
    decreases |s|
  {
    if s == [] then [""]
    else
      var rest := Split(s[1..]);
      if s[0] == Newline then [""] + rest
      else [[s[0]] + rest[0]] + rest[1..]
  }

  /** `parts.join('\n')`. */
  function Join(parts: seq<string>): string
    decreases |parts|
  {
    if |parts| == 0 then ""
    else if |parts| == 1 then parts[0]
    else parts[0] + [Newline] + Join(parts[1..])
  }

  function Last<T>(s: seq<T>): T
    requires |s| > 0
  {
    s[|s| - 1]
  }

  function AllButLast<T>(s: seq<T>): seq<T>
    requires |s| > 0
  {
    s[..|s| - 1]
  }

  /**
   The lines of `s` that a newline terminates (the `lines` array once `pop()`
   has removed the last piece); the text after the last newline is not among them.
   */
  function CompleteLines(s: string): (r: seq<string>)
    ensures forall k :: 0 <= k < |r| ==> Newline !in r[k]
    ensures Newline !in s ==> r == []
  {
    NewlineFreeSplit(s);
    AllButLast(Split(s))
  }

  /** The unterminated text after the last newline of `s`: what the buffer keeps. */
  function Tail(s: string): (t: string)
    ensures Newline !in t
    ensures Newline !in s ==> t == s
  {
    NewlineFreeSplit(s);
    Last(Split(s))
  }

  /** Text without a newline splits into itself alone. */
  lemma NewlineFreeSplit(s: string)
    ensures Newline !in s ==> Split(s) == [s]
  {
    if Newline !in s {
      SplitNewlineFreePrefix(s, "");
      assert s + "" == s;
    }
  }

  /** Joining the pieces of a split with newlines gives back the text. */
  lemma {:induction false} JoinSplit(s: string)
    ensures Join(Split(s)) == s
    decreases |s|
  {
    if s != [] {
      var rest := Split(s[1..]);
      JoinSplit(s[1..]);
      if s[0] == Newline {
        assert Split(s) == [""] + rest;
        assert Join(Split(s)) == "" + [Newline] + Join(rest);
        assert s == [s[0]] + s[1..];
      } else if |rest| == 1 {
        assert Split(s) == [[s[0]] + rest[0]];
        assert s == [s[0]] + s[1..];
      } else {
        var first := [s[0]] + rest[0];
        assert Split(s) == [first] + rest[1..];
        assert ([first] + rest[1..])[1..] == rest[1..];
        assert Join(Split(s)) == first + [Newline] + Join(rest[1..]);
        assert Join(rest) == rest[0] + [Newline] + Join(rest[1..]);
        assert s == [s[0]] + s[1..];
      }
    }
  }

  /** Text without a newline, put in front of `t`, lengthens the first piece of `t`'s split. */
  lemma {:induction false} SplitNewlineFreePrefix(l: string, t: string)
    requires Newline !in l
    ensures Split(l + t) == [l + Split(t)[0]] + Split(t)[1..]
    decreases |l|
  {
    if l != [] {
      assert (l + t)[1..] == l[1..] + t;
      assert (l + t)[0] == l[0];
      SplitNewlineFreePrefix(l[1..], t);
      assert [l[0]] + (l[1..] + Split(t)[0]) == l + Split(t)[0];
    } else {
      assert l + t == t;
      assert l + Split(t)[0] == Split(t)[0];
      assert Split(t) == [Split(t)[0]] + Split(t)[1..];
    }
  }

  /** Splitting a join of newline-free pieces gives back the pieces. */
  lemma {:induction false} SplitJoin(parts: seq<string>)
    requires |parts| >= 1
    requires forall k :: 0 <= k < |parts| ==> Newline !in parts[k]
    ensures Split(Join(parts)) == parts
    decreases |parts|
  {
    if |parts| == 1 {
      SplitNewlineFreePrefix(parts[0], "");
      assert parts[0] + "" == parts[0];
    } else {
      var rest := Join(parts[1..]);
      SplitJoin(parts[1..]);
      assert Join(parts) == parts[0] + ([Newline] + rest);
      SplitNewlineFreePrefix(parts[0], [Newline] + rest);
      assert ([Newline] + rest)[1..] == rest;
      assert Split([Newline] + rest) == [""] + parts[1..];
      assert parts[0] + "" == parts[0];
      assert parts == [parts[0]] + parts[1..];
    }
  }

  /** A join of two or more pieces ends in a newline followed by the last piece. */
  lemma {:induction false} JoinSnoc(parts: seq<string>)
    requires |parts| >= 2
    ensures Join(parts) == Join(AllButLast(parts)) + [Newline] + Last(parts)
    decreases |parts|
  {
    if |parts| > 2 {
      JoinSnoc(parts[1..]);
      assert AllButLast(parts[1..]) == AllButLast(parts)[1..];
      assert |AllButLast(parts)| >= 2;
    }
  }

  /** Joining two non-empty runs of pieces puts one newline between their joins. */
  lemma {:induction false} JoinAppend(p: seq<string>, q: seq<string>)
    requires |p| >= 1 && |q| >= 1
    ensures Join(p + q) == Join(p) + [Newline] + Join(q)
    decreases |p|
  {
    if |p| == 1 {
      assert (p + q)[1..] == q;
    } else {
      JoinAppend(p[1..], q);
      assert (p + q)[1..] == p[1..] + q;
      assert Join(p + q) == p[0] + [Newline] + Join(p[1..] + q);
    }
  }

  /**
   The buffering step: splitting `a + b` gives the complete lines of `a`
   followed by the split of `a`'s unterminated tail with `b` appended.
   */
  lemma SplitAppend(a: string, b: string)
    ensures Split(a + b) == CompleteLines(a) + Split(Tail(a) + b)
  {
    var parts := Split(a);
    if |parts| == 1 {
      JoinSplit(a);
      assert Tail(a) == a;
      assert CompleteLines(a) == [];
    } else {
      var front := CompleteLines(a);
      var back := Split(Tail(a) + b);
      JoinFrontBack(a, b);
      NewlineFreeConcat(front, back);
      SplitJoin(front + back);
    }
  }

  /** The complete lines of `a`, then the pieces of its tail with `b`, join back to `a + b`. */
  lemma JoinFrontBack(a: string, b: string)
    requires |Split(a)| >= 2
    ensures Join(CompleteLines(a) + Split(Tail(a) + b)) == a + b
  {
    var parts := Split(a);
    var front := CompleteLines(a);
    var back := Split(Tail(a) + b);
    JoinSplit(a);
    JoinSnoc(parts);
    JoinSplit(Tail(a) + b);
    JoinAppend(front, back);
    assert a + b == Join(front) + [Newline] + (Tail(a) + b);
  }

  /** Two runs of newline-free pieces make one. */
  lemma NewlineFreeConcat(p: seq<string>, q: seq<string>)
    requires forall k :: 0 <= k < |p| ==> Newline !in p[k]
    requires forall k :: 0 <= k < |q| ==> Newline !in q[k]
    ensures forall k :: 0 <= k < |p + q| ==> Newline !in (p + q)[k]
  {
    forall k | 0 <= k < |p + q| ensures Newline !in (p + q)[k] {
      if k < |p| {
        assert (p + q)[k] == p[k];
      } else {
        assert (p + q)[k] == q[k - |p|];
      }
    }
  }

  /**
   The unterminated tail is exactly the text after the last newline: it holds
   no newline, it ends the text, and a newline comes right before it unless it
   is the whole text.
   */
  lemma TailAfterLastNewline(s: string)
    ensures Newline !in Tail(s)
    ensures |Tail(s)| <= |s| && s[|s| - |Tail(s)|..] == Tail(s)
    ensures |Tail(s)| < |s| ==> s[|s| - |Tail(s)| - 1] == Newline
  {
    var parts := Split(s);
    JoinSplit(s);
    if |parts| >= 2 {
      JoinSnoc(parts);
      var front := Join(AllButLast(parts));
      assert s == front + [Newline] + Tail(s);
      assert s[|s| - |Tail(s)|..] == Tail(s);
      assert s[|s| - |Tail(s)| - 1] == Newline;
    }
  }

  /** Text appended after a newline-terminated prefix adds no complete line when it holds no newline. */
  lemma TrailingTextAddsNoLine(text: string, rest: string)
    requires text == [] || text[|text| - 1] == Newline
    requires Newline !in rest
    ensures CompleteLines(text + rest) == CompleteLines(text)
    ensures Tail(text + rest) == rest
  {
    SplitAppend(text, rest);
    TailAfterLastNewline(text);
    assert Tail(text) == [];
    assert Tail(text) + rest == rest;
    SplitJoin([rest]);
  }

  /** Two newline-terminated lines make exactly two complete lines. */
  lemma TwoLines(x: string, y: string)
    requires Newline !in x && Newline !in y
    ensures CompleteLines(x + [Newline] + y + [Newline]) == [x, y]
  {
    assert [x, y, ""][1..] == [y, ""] && [y, ""][1..] == [""];
    assert Join([y, ""]) == y + [Newline] + "";
    assert Join([x, y, ""]) == x + [Newline] + (y + [Newline] + "");
    assert Join([x, y, ""]) == x + [Newline] + y + [Newline];
    SplitJoin([x, y, ""]);
  }
}
