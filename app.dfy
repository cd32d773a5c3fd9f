/**
 * The root composition (src/components/react/App.tsx): the digit shortcuts
 * of `useKeyboardNav`, the `ErrorBoundary` around the page and the one-shot
 * `mounted` flag that holds the page body back until the first frame.
 */
module App {
  import opened Wrappers

  const NAV_SECTIONS: seq<string> := ["home", "about", "projects", "social"]

  /** JavaScript's `StrWhiteSpaceChar`: white space and line terminators. */
  predicate IsJsSpace(c: char) {
    var n := c as int;
    (0x09 <= n <= 0x0D) || n == 0x20 || n == 0xA0 || n == 0x1680 ||
    (0x2000 <= n <= 0x200A) || n == 0x2028 || n == 0x2029 || n == 0x202F ||
    n == 0x205F || n == 0x3000 || n == 0xFEFF
  }

  predicate IsDigit(c: char) {
    '0' as int <= c as int <= '9' as int
  }

  /** The number of white-space characters `s` starts with. */
  function LeadingSpaces(s: string): (n: nat)
    ensures n <= |s|
    ensures forall k :: 0 <= k < n ==> IsJsSpace(s[k])
    ensures n < |s| ==> !IsJsSpace(s[n])
  {
    if s != [] && IsJsSpace(s[0]) then 1 + LeadingSpaces(s[1..]) else 0
  }

  /** The number of decimal digits `s` starts with. */
  function LeadingDigits(s: string): (n: nat)
    ensures n <= |s|
    ensures forall k :: 0 <= k < n ==> IsDigit(s[k])
    ensures n < |s| ==> !IsDigit(s[n])
  {
    if s != [] && IsDigit(s[0]) then 1 + LeadingDigits(s[1..]) else 0
  }

  /** The value of a string of decimal digits, most significant first. */
  function DigitsValue(ds: string): (v: nat)
    requires forall i :: 0 <= i < |ds| ==> IsDigit(ds[i])
    decreases |ds|
  {
    if ds == [] then 0
    else
      var last := ds[|ds| - 1];
      assert IsDigit(last);
      10 * DigitsValue(ds[..|ds| - 1]) + (last as int - '0' as int)
  }

  /**
   * Position `i` holds the first digit `parseInt` reads: before it there is
   * only white space, optionally followed by one sign character.
   */
  predicate UpToSignedDigit(s: string, i: int)
    requires 0 <= i < |s|
  {
    (forall k :: 0 <= k < i ==> IsJsSpace(s[k])) ||
    (i > 0 && (s[i - 1] == '-' || s[i - 1] == '+') && forall k :: 0 <= k < i - 1 ==> IsJsSpace(s[k]))
  }

  /**
   * What `parseInt` reads once the white space is skipped: one optional
   * sign, then the longest run of decimal digits. Without a digit the result
   * is `NaN`, here `None`.
   */
  function SignedDigits(t: string): (r: Option<int>)
    // a number exactly when `t` starts with a digit, or with a sign and then a digit
    ensures r.Some? <==> (t != [] && IsDigit(t[0])) || (|t| > 1 && (t[0] == '-' || t[0] == '+') && IsDigit(t[1]))
  {
    var negative := t != [] && t[0] == '-';
    var body := if t != [] && (t[0] == '-' || t[0] == '+') then t[1..] else t;
    var ds := body[..LeadingDigits(body)];
    if ds == [] then None
    else Some(if negative then -(DigitsValue(ds) as int) else DigitsValue(ds))
  }

  /** `parseInt(s, 10)`: leading white space is skipped, then the signed digits are read. */
  function ParseInt(s: string): (r: Option<int>)
    // a number exactly when some digit is preceded by white space only, optionally followed by one sign
    ensures r.Some? <==> exists i :: 0 <= i < |s| && IsDigit(s[i]) && UpToSignedDigit(s, i)
  {
    var m := LeadingSpaces(s);
    var t := s[m..];
    assert forall i :: 0 <= i < |t| ==> t[i] == s[m + i];
    SignedDigits(t)
  }

  /** White space `ws` followed by a non-space: exactly `ws` is skipped. */
  lemma {:induction false} LeadingSpacesOfPrefix(ws: string, x: string)
    requires forall k :: 0 <= k < |ws| ==> IsJsSpace(ws[k])
    requires x != [] && !IsJsSpace(x[0])
    ensures LeadingSpaces(ws + x) == |ws|
    decreases |ws|
  {
    if ws == [] {
      assert ws + x == x;
    } else {
      assert (ws + x)[0] == ws[0];
      assert (ws + x)[1..] == ws[1..] + x;
      LeadingSpacesOfPrefix(ws[1..], x);
    }
  }

  /** Digits `ds` followed by a non-digit or nothing: exactly `ds` is read. */
  lemma {:induction false} LeadingDigitsOfPrefix(ds: string, rest: string)
    requires forall k :: 0 <= k < |ds| ==> IsDigit(ds[k])
    requires rest == [] || !IsDigit(rest[0])
    ensures LeadingDigits(ds + rest) == |ds|
    decreases |ds|
  {
    if ds == [] {
      assert ds + rest == rest;
    } else {
      assert (ds + rest)[0] == ds[0];
      assert (ds + rest)[1..] == ds[1..] + rest;
      LeadingDigitsOfPrefix(ds[1..], rest);
    }
  }

  /** Leading white space is skipped: `parseInt` reads the signed digits after it. */
  lemma ParseIntSkipsSpaces(ws: string, x: string)
    requires forall k :: 0 <= k < |ws| ==> IsJsSpace(ws[k])
    requires x != [] && !IsJsSpace(x[0])
    ensures ParseInt(ws + x) == SignedDigits(x)
  {
    LeadingSpacesOfPrefix(ws, x);
    assert (ws + x)[|ws|..] == x;
  }

  /** The maximal run of digits `ds`, unsigned, is read as its decimal value. */
  lemma DigitRunValue(ds: string, rest: string)
    requires ds != [] && forall k :: 0 <= k < |ds| ==> IsDigit(ds[k])
    requires rest == [] || !IsDigit(rest[0])
    ensures SignedDigits(ds + rest) == Some(DigitsValue(ds) as int)
  {
    var body := ds + rest;
    LeadingDigitsOfPrefix(ds, rest);
    assert body[..|ds|] == ds;
    assert body[0] == ds[0];
  }

  /** One sign before a digit: a minus negates the value read after it, a plus keeps it. */
  lemma SignPrefix(c: char, body: string)
    requires c == '-' || c == '+'
    requires body != [] && IsDigit(body[0])
    ensures SignedDigits(body).Some?
    ensures SignedDigits([c] + body)
            == Some(if c == '-' then -SignedDigits(body).value else SignedDigits(body).value)
  {
    assert ([c] + body)[1..] == body;
  }

  /**
   * The value `parseInt` reads from unsigned input: after white space `ws`,
   * the maximal run of digits `ds` gives its decimal value and whatever
   * follows the run is ignored. With a sign in between, `ParseIntSkipsSpaces`
   * and `SignPrefix` give the value negated after a minus and kept after a plus.
   */
  lemma ParseIntReads(ws: string, ds: string, rest: string)
    requires forall k :: 0 <= k < |ws| ==> IsJsSpace(ws[k])
    requires ds != [] && forall k :: 0 <= k < |ds| ==> IsDigit(ds[k])
    requires rest == [] || !IsDigit(rest[0])
    ensures ParseInt(ws + ds + rest) == Some(DigitsValue(ds) as int)
  {
    var x := ds + rest;
    assert ws + ds + rest == ws + x;
    assert x[0] == ds[0];
    ParseIntSkipsSpaces(ws, x);
    DigitRunValue(ds, rest);
  }

  /** What the keydown listener does: whether it prevents the default, and where it scrolls. */
  datatype KeyEffect = KeyEffect(preventDefault: bool, scrollTo: Option<string>)

  /**
   * The keydown listener. A key pressed inside an input or a text area is
   * ignored; otherwise a key whose `parseInt` lies in 1..4 jumps to that
   * section and prevents the default action; any other key, including one
   * that parses to `NaN`, does nothing.
   */
  function HandleKey(key: string, inTextField: bool): (e: KeyEffect)
    ensures e.preventDefault <==> e.scrollTo.Some?
    ensures inTextField ==> e == KeyEffect(false, None)
    ensures e.scrollTo.Some? ==> e.scrollTo.value in NAV_SECTIONS
    ensures e.scrollTo.Some? <==> !inTextField && ParseInt(key).Some? && 1 <= ParseInt(key).value <= 4
    ensures e.scrollTo.Some? ==> e.scrollTo.value == NAV_SECTIONS[ParseInt(key).value - 1]
  {
    if inTextField then KeyEffect(false, None)
    else match ParseInt(key)
      case Some(num) =>
        if 1 <= num <= 4 then KeyEffect(true, Some(NAV_SECTIONS[num - 1])) else KeyEffect(false, None)
      case None => KeyEffect(false, None)
  }

  /** A key that is a single character parses to that digit, or to `NaN`. */
  lemma ParseSingleChar(c: char)
    ensures IsDigit(c) ==> ParseInt([c]) == Some(c as int - '0' as int)
    ensures !IsDigit(c) ==> ParseInt([c]) == None
  {
    var s := [c];
    if IsDigit(c) {
      assert !IsJsSpace(c) && c != '-' && c != '+';
      assert LeadingSpaces(s) == 0 && s[0..] == s;
      assert s[1..] == [];
      assert LeadingDigits(s) == 1 && s[..1] == s;
      assert s[..0] == [];
      assert DigitsValue(s) == c as int - '0' as int;
    }
  }

  /**
   * For single-character keys outside a text field, the listener jumps
   * exactly for '1' to '4', to the section at that position; '0', '5' to
   * '9', letters and every other character do nothing.
   */
  lemma SingleKeyJumps(c: char)
    ensures HandleKey([c], false).scrollTo.Some? <==> '1' <= c <= '4'
    ensures '1' <= c <= '4' ==>
      HandleKey([c], false) == KeyEffect(true, Some(NAV_SECTIONS[c as int - '1' as int]))
  {
    ParseSingleChar(c);
  }

  /** The four shortcuts by name. */
  lemma DigitShortcuts()
    ensures HandleKey("1", false).scrollTo == Some("home")
    ensures HandleKey("2", false).scrollTo == Some("about")
    ensures HandleKey("3", false).scrollTo == Some("projects")
    ensures HandleKey("4", false).scrollTo == Some("social")
    ensures HandleKey("0", false) == KeyEffect(false, None)
    ensures HandleKey("5", false) == KeyEffect(false, None)
    ensures HandleKey("a", false) == KeyEffect(false, None)
    ensures HandleKey("2", true) == KeyEffect(false, None)
  {
    SingleKeyJumps('1');
    SingleKeyJumps('2');
    SingleKeyJumps('3');
    SingleKeyJumps('4');
    SingleKeyJumps('0');
    SingleKeyJumps('5');
    SingleKeyJumps('a');
  }

  /** What the boundary renders. */
  datatype View = Children | Fallback

  /** The error boundary around the page. */
  class ErrorBoundary {
    var hasError: bool

    /** The fallback replaces the children exactly while a fault is recorded. */
    function Rendered(): (v: View) reads this
      ensures v == Fallback <==> hasError
      ensures v == Children <==> !hasError
    {
      if hasError then Fallback else Children
    }

    constructor ()
      ensures !hasError && Rendered() == Children
    {
      hasError := false;
    }

    /** `getDerivedStateFromError`: any descendant fault shows the fallback. */
    method CatchFault()
      modifies this
      ensures hasError && Rendered() == Fallback
    {
      hasError := true;
    }

    /** The "Try again" button: render the children again. */
    method Retry()
      modifies this
      ensures !hasError && Rendered() == Children
    {
      hasError := false;
    }
  }

  /** What the page always renders ahead of its body. */
  const Chrome: seq<string> := ["ScrollProgress", "Navbar", "DotNav"]

  /** The page sections, rendered inside the animated `main` element. */
  const BodySections: seq<string> := ["Hero", "About", "Projects", "Social"]

  /** The `mounted` flag of the page and the animation frame that sets it. */
  class PageMount {
    var mounted: bool
    var framePending: bool

    /**
     * The components the page renders, in order: the scroll-progress bar,
     * the two navigations and the footer always; the four page sections only
     * once mounted.
     */
    function Components(): (r: seq<string>) reads this
      ensures |r| == if mounted then 8 else 4
      ensures r[..3] == Chrome && r[|r| - 1] == "Footer"
      ensures forall c :: c in BodySections ==> (c in r <==> mounted)
      ensures mounted ==> r[3..7] == BodySections
    {
      Chrome + (if mounted then BodySections else []) + ["Footer"]
    }

    /** First render and its effect: not mounted yet, one frame requested. */
    constructor ()
      ensures !mounted && framePending && "Hero" !in Components()
    {
      mounted := false;
      framePending := true;
    }

    /** The next animation frame: a requested frame mounts the body. */
    method AnimationFrame()
      modifies this
      ensures mounted == (old(mounted) || old(framePending))
      ensures !framePending
    {
      if framePending {
        mounted := true;
        framePending := false;
      }
    }

    /** Unmounting cancels a frame not yet fired. */
    method Unmount()
      modifies this
      ensures !framePending && mounted == old(mounted)
    {
      framePending := false;
    }
  }
}
