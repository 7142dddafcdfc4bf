/**
 * Operating-system paths, as `std::path::Path` sees them: a sequence of units
 * that need not be valid Unicode, split into components at the platform's
 * separators. A local path on disk is the list of its components.
 */
module OsPath {
  import opened Prelude

  /** One unit of an OS string: a character, or a unit that is not valid Unicode. */
  datatype OsUnit = Char(c: char) | Raw(code: nat)

  /** A path component, never empty and never holding a separator. */
  type Segment = seq<OsUnit>

  /** A local path as the list of its components. */
  type LocalPath = seq<Segment>

  /** Unix separates components with `/` only; Windows with `/` and `\`. */
  datatype Platform = Unix | Windows

  predicate IsSeparator(pl: Platform, u: OsUnit)
  {
    u == Char('/') || (pl == Windows && u == Char('\\'))
  }

  /** The OS string of a Rust `&str`. */
  function Units(s: string): (r: seq<OsUnit>)
    ensures |r| == |s|
    ensures forall i :: 0 <= i < |s| ==> r[i] == Char(s[i])
  {
    if s == [] then [] else [Char(s[0])] + Units(s[1..])
  }

  predicate IsUtf8(p: seq<OsUnit>)
  {
    forall i :: 0 <= i < |p| ==> p[i].Char?
  }

  /** `Path::to_str`: the text of the path when every unit is a character. */
  function ToStr(p: seq<OsUnit>): (r: Option<string>)
    ensures r.Some? <==> IsUtf8(p)
    ensures r.Some? ==> Units(r.value) == p
  {
    if p == [] then Some([])
    else if !p[0].Char? then None
    else match ToStr(p[1..])
      case None => None
      case Some(rest) => Some([p[0].c] + rest)
  }

  lemma {:induction false} ToStrOfUnits(s: string)
    ensures ToStr(Units(s)) == Some(s)
  {
    if s != [] {
      assert Units(s)[1..] == Units(s[1..]);
      ToStrOfUnits(s[1..]);
      assert [s[0]] + s[1..] == s;
    }
  }

  /** The index of the first separator of `p`, or `|p|` when there is none. */
  function FirstSeparator(pl: Platform, p: seq<OsUnit>): (n: nat)
    ensures n <= |p|
    ensures forall i :: 0 <= i < n ==> !IsSeparator(pl, p[i])
    ensures n < |p| ==> IsSeparator(pl, p[n])
  {
    if p == [] || IsSeparator(pl, p[0]) then 0 else 1 + FirstSeparator(pl, p[1..])
  }

  /** The component names of `p`: the maximal runs between separators, empty runs dropped. */
  function Names(pl: Platform, p: seq<OsUnit>): (r: seq<Segment>)
    ensures forall k :: 0 <= k < |r| ==> r[k] != []
    ensures forall k, i :: 0 <= k < |r| && 0 <= i < |r[k]| ==> !IsSeparator(pl, r[k][i])
    decreases |p|
  {
    if p == [] then []
    else
      var n := FirstSeparator(pl, p);
      var rest := if n < |p| then Names(pl, p[n + 1..]) else [];
      if n == 0 then rest else [p[..n]] + rest
  }

  /** The component that stands for the root of an absolute path. */
  const RootSegment: Segment := [Char('/')]

  /** `Path::components` for the paths of this model: the root (if any), then the names. */
  function Components(pl: Platform, p: seq<OsUnit>): (r: seq<Segment>)
    ensures (|p| > 0 && IsSeparator(pl, p[0])) <==> (|r| > 0 && r[0] == RootSegment)
    ensures forall k :: 0 <= k < |r| ==> r[k] != []
  {
    if |p| > 0 && IsSeparator(pl, p[0]) then [RootSegment] + Names(pl, p) else Names(pl, p)
  }

  /** Every `\` unit turned into `/`, other units untouched (also for non-Unicode paths). */
  function Slashed(p: seq<OsUnit>): (r: seq<OsUnit>)
    ensures |r| == |p|
    ensures forall i :: 0 <= i < |p| ==> r[i] == (if p[i] == Char('\\') then Char('/') else p[i])
  {
    if p == [] then [] else [if p[0] == Char('\\') then Char('/') else p[0]] + Slashed(p[1..])
  }

  /** On Windows both separator styles name the same components. */
  lemma {:induction false} WindowsNamesIgnoreSeparatorStyle(p: seq<OsUnit>)
    ensures Names(Windows, Slashed(p)) == Names(Windows, p)
    decreases |p|
  {
    if p != [] {
      var n := FirstSeparator(Windows, p);
      FirstSeparatorOfSlashed(p);
      SlashedOfPlainPrefix(p, n);
      if n < |p| {
        SlashedOfSuffix(p, n + 1);
        WindowsNamesIgnoreSeparatorStyle(p[n + 1..]);
      }
    }
  }

  /** Before a run free of Windows separators, `Slashed` changes nothing. */
  lemma {:induction false} SlashedOfPlainPrefix(p: seq<OsUnit>, n: nat)
    requires n <= |p| && forall i :: 0 <= i < n ==> !IsSeparator(Windows, p[i])
    ensures Slashed(p)[..n] == p[..n]
    decreases n
  {
    if n > 0 {
      assert !IsSeparator(Windows, p[0]);
      assert forall i :: 0 <= i < n - 1 ==> p[1..][i] == p[i + 1];
      SlashedOfPlainPrefix(p[1..], n - 1);
      assert Slashed(p)[..n] == [p[0]] + Slashed(p[1..])[..n - 1];
      assert p[..n] == [p[0]] + p[1..][..n - 1];
    }
  }

  /** After position `m`, `Slashed` acts on the rest alone. */
  lemma {:induction false} SlashedOfSuffix(p: seq<OsUnit>, m: nat)
    requires m <= |p|
    ensures Slashed(p)[m..] == Slashed(p[m..])
    decreases m
  {
    if m == 0 {
      assert p[m..] == p;
    } else {
      assert Slashed(p)[1..] == Slashed(p[1..]);
      SlashedOfSuffix(p[1..], m - 1);
      assert p[1..][m - 1..] == p[m..];
      assert Slashed(p)[m..] == Slashed(p)[1..][m - 1..];
    }
  }

  lemma {:induction false} FirstSeparatorOfSlashed(p: seq<OsUnit>)
    ensures FirstSeparator(Windows, Slashed(p)) == FirstSeparator(Windows, p)
    decreases |p|
  {
    if p != [] {
      assert Slashed(p)[1..] == Slashed(p[1..]);
      FirstSeparatorOfSlashed(p[1..]);
    }
  }

  lemma WindowsComponentsIgnoreSeparatorStyle(p: seq<OsUnit>)
    ensures Components(Windows, Slashed(p)) == Components(Windows, p)
  {
    WindowsNamesIgnoreSeparatorStyle(p);
  }

  /** On Unix a `\` is an ordinary character: `a\b` is one component, `a/b` two. */
  lemma UnixBackslashIsNotASeparator()
    ensures Slashed(Units("a\\b")) == Units("a/b")
    ensures Components(Unix, Units("a\\b")) == [Units("a\\b")]
    ensures Components(Unix, Units("a/b")) == [Units("a"), Units("b")]
  {
    var p := Units("a\\b");
    assert FirstSeparator(Unix, p[2..]) == 1;
    assert FirstSeparator(Unix, p[1..]) == 2;
    assert FirstSeparator(Unix, p) == 3;
    assert p[..3] == p;
    var q := Units("a/b");
    assert FirstSeparator(Unix, q) == 1;
    assert q[2..] == Units("b");
    assert FirstSeparator(Unix, q[2..]) == 1;
    assert q[2..][..1] == q[2..];
    assert q[..1] == Units("a");
  }

  /** Names fit to be path components: each non-empty and free of the platform's separators. */
  predicate PlainNames(pl: Platform, ns: seq<Segment>)
  {
    forall k :: 0 <= k < |ns| ==> ns[k] != [] && forall i :: 0 <= i < |ns[k]| ==> !IsSeparator(pl, ns[k][i])
  }

  /** The names laid end to end with one `/` between each two. */
  function JoinNames(ns: seq<Segment>): (p: seq<OsUnit>)
    ensures ns != [] ==> |ns[0]| <= |p| && p[..|ns[0]|] == ns[0]
  {
    if ns == [] then []
    else if |ns| == 1 then ns[0]
    else ns[0] + [Char('/')] + JoinNames(ns[1..])
  }

  /** A plain name followed by `/` splits off as the first name. */
  lemma NamesOfCons(pl: Platform, a: Segment, rest: seq<OsUnit>)
    requires a != [] && forall i :: 0 <= i < |a| ==> !IsSeparator(pl, a[i])
    ensures Names(pl, a + [Char('/')] + rest) == [a] + Names(pl, rest)
  {
    var p := a + [Char('/')] + rest;
    assert p[|a|] == Char('/');
    assert FirstSeparator(pl, p) == |a|;
    assert p[..|a|] == a;
    assert p[|a| + 1..] == rest;
  }

  /** Splitting a path joined from plain names gives back exactly those names, in order. */
  lemma {:induction false} NamesOfJoin(pl: Platform, ns: seq<Segment>)
    requires PlainNames(pl, ns)
    ensures Names(pl, JoinNames(ns)) == ns
    decreases |ns|
  {
    if |ns| == 1 {
      var p := ns[0];
      assert JoinNames(ns) == p;
      assert FirstSeparator(pl, p) == |p|;
      assert p[..|p|] == p;
    } else if |ns| > 1 {
      var tail := ns[1..];
      assert PlainNames(pl, tail) by {
        forall k | 0 <= k < |tail| ensures tail[k] == ns[k + 1] { }
      }
      NamesOfJoin(pl, tail);
      assert JoinNames(ns) == ns[0] + [Char('/')] + JoinNames(tail);
      NamesOfCons(pl, ns[0], JoinNames(tail));
      assert [ns[0]] + tail == ns;
    }
  }

  /**
   * `Path::components` of a relative path joined from plain names is exactly
   * those names, in order.
   */
  lemma ComponentsOfJoin(pl: Platform, ns: seq<Segment>)
    requires PlainNames(pl, ns)
    ensures Components(pl, JoinNames(ns)) == ns
  {
    NamesOfJoin(pl, ns);
    if ns != [] {
      assert JoinNames(ns)[0] == ns[0][0];
    }
  }

  /** The same for the path of a text `a/b` whose names hold neither `/` nor `\`. */
  lemma TextTwoNames(pl: Platform, a: string, b: string)
    requires a != [] && b != []
    requires '/' !in a && '\\' !in a && '/' !in b && '\\' !in b
    ensures Components(pl, Units(a + "/" + b)) == [Units(a), Units(b)]
  {
    UnitsConcat(a + "/", b);
    UnitsConcat(a, "/");
    assert Units("/") == [Char('/')];
    assert Units(a + "/" + b) == Units(a) + [Char('/')] + Units(b);
    UnitsWithoutSeparators(pl, a);
    UnitsWithoutSeparators(pl, b);
    var ns := [Units(a), Units(b)];
    assert ns[1..] == [Units(b)];
    assert JoinNames(ns) == Units(a) + [Char('/')] + Units(b);
    ComponentsOfJoin(pl, ns);
  }

  lemma {:induction false} UnitsConcat(s: string, t: string)
    ensures Units(s + t) == Units(s) + Units(t)
  {
    if s == [] {
      assert s + t == t;
    } else {
      assert (s + t)[1..] == s[1..] + t;
      UnitsConcat(s[1..], t);
    }
  }

  lemma UnitsWithoutSeparators(pl: Platform, s: string)
    requires '/' !in s && '\\' !in s
    ensures forall i :: 0 <= i < |Units(s)| ==> !IsSeparator(pl, Units(s)[i])
  {
    forall i | 0 <= i < |s| ensures !IsSeparator(pl, Units(s)[i]) {
      assert s[i] in s;
    }
  }

  /** A path with no separator and not starting with one is a single component. */
  lemma SingleComponent(pl: Platform, p: seq<OsUnit>)
    requires p != []
    requires forall i :: 0 <= i < |p| ==> !IsSeparator(pl, p[i])
    ensures Components(pl, p) == [p]
  {
    assert JoinNames([p]) == p;
    ComponentsOfJoin(pl, [p]);
  }
}
