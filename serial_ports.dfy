/**
  Serial-port discovery of the Arduino detector: the device paths matched by
  six filename patterns, merged, de-duplicated and sorted
  (`sorted(list(set(...)))`).
 */
module SerialPorts {
  import opened Text

  /** The device-path patterns, in the order they are tried. */
  const Patterns: seq<string> := [
    "/dev/cu.usbserial*",
    "/dev/cu.usbmodem*",
    "/dev/cu.wchusbserial*",
    "/dev/tty.usbserial*",
    "/dev/tty.usbmodem*",
    "/dev/tty.wchusbserial*"
  ]

  /** The set of elements of a list (`set(xs)`). */
  function Elements(s: seq<string>): (r: set<string>)
    ensures forall i :: 0 <= i < |s| ==> s[i] in r
    ensures forall x :: x in r ==> x in s
  {
    set x | x in s
  }

  /**
    Every path matched by any pattern; `glob` gives the matches of one
    pattern. It is empty exactly when no pattern matched anything.
   */
  function Matched(glob: string -> seq<string>): (r: set<string>)
    ensures r == {} <==> forall j :: 0 <= j < |Patterns| ==> glob(Patterns[j]) == []
  {
    var r := set j, p | 0 <= j < |Patterns| && p in glob(Patterns[j]) :: p;
    assert forall j :: 0 <= j < |Patterns| && glob(Patterns[j]) != [] ==> r != {} by {
      forall j | 0 <= j < |Patterns| && glob(Patterns[j]) != []
        ensures r != {}
      {
        var p := glob(Patterns[j])[0];
        assert p in glob(Patterns[j]);
        assert p in r;
      }
    }
    r
  }

  /** Sorted without duplicates, in Python's string order. */
  predicate StrictlyAscending(s: seq<string>) {
    forall i, j :: 0 <= i < j < |s| ==> Below(s[i], s[j])
  }

  /** Everything in an ascending list is above anything below its head. */
  lemma BelowHead(x: string, s: seq<string>)
    requires StrictlyAscending(s) && s != [] && Below(x, s[0])
    ensures forall j :: 0 <= j < |s| ==> Below(x, s[j])
  {
    forall j | 0 < j < |s|
      ensures Below(x, s[j])
    {
      BelowTransitive(x, s[0], s[j]);
    }
  }

  /** A new head below every element keeps a list ascending. */
  lemma ConsAscending(h: string, rest: seq<string>)
    requires StrictlyAscending(rest)
    requires forall x :: x in Elements(rest) ==> Below(h, x)
    ensures StrictlyAscending([h] + rest)
    ensures Elements([h] + rest) == {h} + Elements(rest)
  {
    var r := [h] + rest;
    forall i, j | 0 <= i < j < |r|
      ensures Below(r[i], r[j])
    {
      assert r[j] == rest[j - 1] && rest[j - 1] in Elements(rest);
      if i > 0 {
        assert r[i] == rest[i - 1];
      }
    }
  }

  /** Puts `x` into its place in an ascending list, unless it is there already. */
  function Insert(s: seq<string>, x: string): (r: seq<string>)
    requires StrictlyAscending(s)
    ensures StrictlyAscending(r)
    ensures Elements(r) == Elements(s) + {x}
  {
    if s == [] then [x]
    else if x == s[0] then s
    else if Below(x, s[0]) then
      BelowHead(x, s);
      [x] + s
    else
      BelowTotal(x, s[0]);
      var rest := Insert(s[1..], x);
      ElementsCons(s);
      ConsAscending(s[0], rest);
      [s[0]] + rest
  }

  /** `sorted(list(set(xs)))`: the distinct elements of `xs` in ascending order. */
  function SortedSet(xs: seq<string>): (r: seq<string>)
    ensures StrictlyAscending(r)
    ensures Elements(r) == Elements(xs)
  {
    if xs == [] then []
    else
      var init := xs[..|xs| - 1];
      assert xs == init + [xs[|xs| - 1]];
      assert Elements(xs) == Elements(init) + {xs[|xs| - 1]};
      Insert(SortedSet(init), xs[|xs| - 1])
  }

  lemma ElementsEmpty(s: seq<string>)
    ensures Elements(s) == {} <==> s == []
  {
    if s != [] {
      assert s[0] in Elements(s);
    }
  }

  lemma ElementsCons(s: seq<string>)
    requires s != []
    ensures Elements(s) == {s[0]} + Elements(s[1..])
    ensures StrictlyAscending(s) ==> s[0] !in Elements(s[1..])
  {
    assert s == [s[0]] + s[1..];
    if StrictlyAscending(s) {
      BelowIrreflexive(s[0]);
      forall j | 0 <= j < |s[1..]|
        ensures s[1..][j] != s[0]
      {
        assert Below(s[0], s[j + 1]);
      }
    }
  }

  /**
    An ascending list without duplicates is determined by its elements:
    the sorted, de-duplicated port list depends only on the set of matched
    paths, not on the order `glob` returned them in.
   */
  lemma {:induction false} AscendingUnique(a: seq<string>, b: seq<string>)
    requires StrictlyAscending(a) && StrictlyAscending(b)
    requires Elements(a) == Elements(b)
    ensures a == b
  {
    if a != [] {
      assert a[0] in Elements(b);
      assert b != [];
      assert b[0] in Elements(a);
      var k :| 0 <= k < |b| && b[k] == a[0];
      var m :| 0 <= m < |a| && a[m] == b[0];
      if k > 0 && m > 0 {
        assert Below(b[0], a[0]) && Below(a[0], b[0]);
        BelowTotal(a[0], b[0]);
      }
      assert a[0] == b[0];
      ElementsCons(a);
      ElementsCons(b);
      AscendingUnique(a[1..], b[1..]);
      assert a == [a[0]] + a[1..] && b == [b[0]] + b[1..];
    } else {
      ElementsEmpty(b);
    }
  }

  /** An ascending list has as many entries as distinct elements. */
  lemma {:induction false} AscendingCard(s: seq<string>)
    requires StrictlyAscending(s)
    ensures |Elements(s)| == |s|
  {
    if s != [] {
      ElementsCons(s);
      AscendingCard(s[1..]);
    }
  }

  /**
    `get_serial_ports`: the matches of every pattern, merged, de-duplicated
    and sorted. `glob` stands for the filesystem lookup of one pattern.
   */
  method GetSerialPorts(glob: string -> seq<string>) returns (ports: seq<string>)
    ensures StrictlyAscending(ports)
    ensures Elements(ports) == Matched(glob)
  {
    var usbDevices: seq<string> := [];
    for i := 0 to |Patterns|
      invariant forall p :: p in usbDevices <==> exists j :: 0 <= j < i && p in glob(Patterns[j])
    {
      usbDevices := usbDevices + glob(Patterns[i]);
    }
    ports := SortedSet(usbDevices);
    forall p | p in Matched(glob)
      ensures p in usbDevices
    {
      var j :| 0 <= j < |Patterns| && p in glob(Patterns[j]);
    }
  }
}
