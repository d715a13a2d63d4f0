/** Paths as the strings the table holds: names joined by slashes. The string tests of
    retag_paths are the tests on names. */
module MtpPaths {
  import opened Bytes
  import opened MtpTable

  ghost predicate Name(s: string) {
    s != [] && '/' !in s
  }

  ghost predicate Sound(p: Path) {
    forall i :: 0 <= i < |p| ==> Name(p[i])
  }

  /** path_join, from the root down. */
  function Text(p: Path): string {
    if p == [] then "" else Join(Text(p[..|p| - 1]), p[|p| - 1])
  }

  function Join(dir: string, name: string): string {
    if dir != "" then dir + "/" + name else name
  }

  /** What follows a path when more names are put below it. */
  function Tail(more: Path): string {
    if more == [] then "" else Tail(more[..|more| - 1]) + "/" + more[|more| - 1]
  }

  lemma {:induction false} TextNonempty(p: Path)
    requires Sound(p)
    ensures Text(p) == "" <==> p == []
  {
    if p != [] {
      TextNonempty(p[..|p| - 1]);
    }
  }

  lemma {:induction false} TextAppend(p: Path, more: Path)
    requires p != [] && Sound(p)
    ensures Text(p + more) == Text(p) + Tail(more)
  {
    TextNonempty(p);
    if more == [] {
      assert p + more == p;
    } else {
      var front := more[..|more| - 1];
      TextAppend(p, front);
      assert (p + more)[..|p + more| - 1] == p + front;
    }
  }

  lemma {:induction false} TailFront(more: Path)
    requires more != []
    ensures Tail(more) == "/" + more[0] + Tail(more[1..])
    decreases |more|
  {
    if |more| == 1 {
      assert more[..0] == [] && more[1..] == [];
    } else {
      var front, last := more[..|more| - 1], more[|more| - 1];
      TailFront(front);
      TailLast(more[1..], front[1..], last);
      Grouped("/" + more[0], Tail(front[1..]), "/", last);
    }
  }

  lemma TailLast(more: Path, front: Path, last: string)
    requires more == front + [last]
    ensures Tail(more) == Tail(front) + "/" + last
  {
    assert more[..|more| - 1] == front;
  }

  lemma Grouped(a: string, b: string, c: string, d: string)
    ensures a + b + c + d == a + (b + c + d)
  {}

  /** Names before the first slash: the first name of a text. */
  lemma {:induction false} TextFront(p: Path)
    requires p != []  && Sound(p)
    ensures Text(p) == p[0] + Tail(p[1..])
  {
    assert p == [p[0]] + p[1..];
    assert [p[0]][..0] == [];
    TextAppend([p[0]], p[1..]);
  }

  lemma TailStart(a: Path)
    ensures Tail(a) == "" || Tail(a)[0] == '/'
    ensures Tail(a) == "" <==> a == []
  {
    if a != [] {
      TailFront(a);
    }
  }

  function SlashAt(s: string): (n: nat)
    ensures n <= |s|
  {
    if s == "" || s[0] == '/' then 0 else 1 + SlashAt(s[1..])
  }

  lemma {:induction false} SlashAfter(x: string, s: string)
    requires '/' !in x && (s == "" || s[0] == '/')
    ensures SlashAt(x + s) == |x|
  {
    if x == "" {
      assert x + s == s;
    } else {
      assert (x + s)[1..] == x[1..] + s;
      SlashAfter(x[1..], s);
    }
  }

  lemma SameFirst(x: string, s: string, y: string, t: string)
    requires '/' !in x && '/' !in y && "/" + x + s == "/" + y + t
    requires (s == "" || s[0] == '/') && (t == "" || t[0] == '/')
    ensures x == y && s == t
  {
    assert x + s == ("/" + x + s)[1..] && y + t == ("/" + y + t)[1..];
    SlashAfter(x, s);
    SlashAfter(y, t);
    assert (x + s)[..|x|] == x && (y + t)[..|y|] == y;
    assert (x + s)[|x|..] == s && (y + t)[|y|..] == t;
  }

  /** A text that goes on with a slash, or not at all, after the names of `a` starts with them. */
  lemma {:induction false} TailPrefix(a: Path, p: Path, more: string)
    requires Sound(a) && Sound(p) && Tail(p) == Tail(a) + more && (more == "" || more[0] == '/')
    ensures a <= p && Tail(p[|a|..]) == more
    decreases |a|
  {
    if a != [] {
      FirstNames(a, p, more);
      TailPrefix(a[1..], p[1..], more);
      assert p == [p[0]] + p[1..] && a == [a[0]] + a[1..];
      assert p[|a|..] == p[1..][|a| - 1..];
    } else {
      assert "" + more == more && p[0..] == p;
    }
  }

  lemma FirstNames(a: Path, p: Path, more: string)
    requires a != [] && Sound(a) && Sound(p) && Tail(p) == Tail(a) + more && (more == "" || more[0] == '/')
    ensures p != [] && p[0] == a[0] && Tail(p[1..]) == Tail(a[1..]) + more
  {
    TailStart(a);
    TailStart(p);
    TailFront(a);
    TailFront(p);
    TailStart(a[1..]);
    TailStart(p[1..]);
    Assoc("/" + a[0], Tail(a[1..]), more);
    SameFirst(p[0], Tail(p[1..]), a[0], Tail(a[1..]) + more);
  }

  lemma SlashText(p: Path)
    requires p != [] && Sound(p)
    ensures Tail(p) == "/" + Text(p)
  {
    TextFront(p);
    TailFront(p);
    Assoc("/", p[0], Tail(p[1..]));
  }

  /** Entries with the same text are entries with the same path. */
  lemma TextInjective(a: Path, b: Path)
    requires a != [] && b != [] && Sound(a) && Sound(b) && Text(a) == Text(b)
    ensures a == b
  {
    SlashText(a);
    SlashText(b);
    assert Tail(a) == Tail(b) + "";
    TailPrefix(b, a, "");
    TailStart(a[|b|..]);
    assert a == b + a[|b|..];
  }

  /** The test of retag_paths: the old text is a prefix and a slash follows it. */
  predicate TextBelow(text: string, old_: string) {
    old_ <= text && |text| > |old_| && text[|old_|] == '/'
  }

  /** It holds exactly of the paths strictly below the old one, and splicing the texts is
      splicing the paths. */
  lemma RetagTest(p: Path, old_: Path, neu: Path)
    requires p != [] && old_ != [] && neu != [] && Sound(p) && Sound(old_) && Sound(neu)
    ensures TextBelow(Text(p), Text(old_)) <==> old_ <= p && p != old_
    ensures old_ <= p ==> Text(neu) + Text(p)[|Text(old_)|..] == Text(neu + p[|old_|..])
  {
    PathToText(p, old_, neu);
    TextToPath(p, old_);
  }

  lemma PathToText(p: Path, old_: Path, neu: Path)
    requires p != [] && old_ != [] && neu != [] && Sound(p) && Sound(old_) && Sound(neu)
    ensures old_ <= p ==> (TextBelow(Text(p), Text(old_)) <==> p != old_)
    ensures old_ <= p ==> Text(old_) <= Text(p) && Text(neu) + Text(p)[|Text(old_)|..] == Text(neu + p[|old_|..])
  {
    if old_ <= p {
      var more := p[|old_|..];
      assert p == old_ + more;
      BelowIsTested(p, old_, neu, more);
    }
  }

  lemma TextToPath(p: Path, old_: Path)
    requires p != [] && old_ != [] && Sound(p) && Sound(old_)
    ensures TextBelow(Text(p), Text(old_)) ==> old_ <= p && p != old_
  {
    if TextBelow(Text(p), Text(old_)) {
      var more := Text(p)[|Text(old_)|..];
      assert Text(p) == Text(old_) + more;
      TestedIsBelow(p, old_, more);
    }
  }

  lemma BelowIsTested(p: Path, old_: Path, neu: Path, more: Path)
    requires old_ != [] && neu != [] && Sound(p) && Sound(old_) && Sound(neu) && p == old_ + more
    ensures TextBelow(Text(p), Text(old_)) <==> more != []
    ensures Text(old_) <= Text(p) && Text(neu) + Text(p)[|Text(old_)|..] == Text(neu + more)
  {
    TextAppend(old_, more);
    TextAppend(neu, more);
    TailStart(more);
    assert Text(p)[|Text(old_)|..] == Tail(more);
  }

  lemma TestedIsBelow(p: Path, old_: Path, more: string)
    requires p != [] && old_ != [] && Sound(p) && Sound(old_) && Text(p) == Text(old_) + more && more != "" && more[0] == '/'
    ensures old_ <= p && p != old_
  {
    SlashText(p);
    SlashText(old_);
    Assoc("/", Text(old_), more);
    TailPrefix(old_, p, more);
    TailStart(p[|old_|..]);
  }
}
