/** Splitting and joining text on a one-character separator. */
module Text {

  /** `s.split(sep)` / `strings.Split(s, sep)`: always at least one piece. */
  function Split(s: string, sep: char): (r: seq<string>)
    ensures |r| >= 1
    ensures forall i | 0 <= i < |r| :: sep !in r[i]
  {
    if s == "" then [""]
    else
      var n := |s| - 1;
      var r := Split(s[..n], sep);
      if s[n] == sep then r + [""]
      else r[..|r| - 1] + [r[|r| - 1] + [s[n]]]
  }

  /** `r.join(sep)` / `strings.Join(r, sep)` */
  function Join(r: seq<string>, sep: char): string {
    if r == [] then ""
    else if |r| == 1 then r[0]
    else Join(r[..|r| - 1], sep) + [sep] + r[|r| - 1]
  }

  lemma {:induction false} SplitPlain(s: string, sep: char)
    requires sep !in s
    ensures Split(s, sep) == [s]
  {
    if s != "" {
      var n := |s| - 1;
      assert forall x | x in s[..n] :: x in s;
      SplitPlain(s[..n], sep);
      assert s[n] in s;
      assert s == s[..n] + [s[n]];
    }
  }

  /** Splitting at a separator and then each side is splitting the whole. */
  lemma {:induction false} SplitAppend(a: string, b: string, sep: char)
    ensures Split(a + [sep] + b, sep) == Split(a, sep) + Split(b, sep)
  {
    if b == "" {
      SplitSnoc(a, sep, sep);
      assert a + [sep] + b == a + [sep];
    } else {
      var n := |b| - 1;
      var init := b[..n];
      assert b == init + [b[n]];
      SplitAppend(a, init, sep);
      assert a + [sep] + b == (a + [sep] + init) + [b[n]];
      SplitAppendSnoc(a + [sep] + init, Split(a, sep), init, b[n], sep);
    }
  }

  lemma SplitAppendSnoc(whole: string, left: seq<string>, right: string, ch: char, sep: char)
    requires Split(whole, sep) == left + Split(right, sep)
    ensures Split(whole + [ch], sep) == left + Split(right + [ch], sep)
  {
    SplitSnoc(whole, ch, sep);
    SplitSnoc(right, ch, sep);
    ExtendAppend(left, Split(right, sep), ch, sep);
  }

  /** The pieces of a text that got one more character. */
  function Extend(r: seq<string>, ch: char, sep: char): seq<string>
    requires r != []
  {
    if ch == sep then r + [""] else r[..|r| - 1] + [r[|r| - 1] + [ch]]
  }

  lemma ExtendAppend(a: seq<string>, b: seq<string>, ch: char, sep: char)
    requires b != []
    ensures Extend(a + b, ch, sep) == a + Extend(b, ch, sep)
  {
    assert (a + b)[..|a + b| - 1] == a + b[..|b| - 1];
  }

  lemma SplitSnoc(s: string, ch: char, sep: char)
    ensures Split(s + [ch], sep) == Extend(Split(s, sep), ch, sep)
  {
    assert (s + [ch])[..|s|] == s;
  }

  lemma JoinSnoc(r: seq<string>, last: string, sep: char)
    requires r != []
    ensures Join(r + [last], sep) == Join(r, sep) + [sep] + last
  {
    assert (r + [last])[..|r|] == r;
  }

  /** A piece after the last separator is split off whole. */
  lemma SplitLast(a: string, b: string, sep: char)
    requires sep !in b
    ensures Split(a + [sep] + b, sep) == Split(a, sep) + [b]
  {
    SplitAppend(a, b, sep);
    SplitPlain(b, sep);
  }

  /** Splitting undoes joining when no piece contains the separator. */
  lemma {:induction false} SplitJoin(r: seq<string>, sep: char)
    requires r != [] && forall i | 0 <= i < |r| :: sep !in r[i]
    ensures Split(Join(r, sep), sep) == r
  {
    var n := |r| - 1;
    if n == 0 {
      SplitPlain(r[0], sep);
    } else {
      var init := r[..n];
      assert r == init + [r[n]];
      SplitJoin(init, sep);
      JoinSnoc(init, r[n], sep);
      SplitLast(Join(init, sep), r[n], sep);
    }
  }
}
