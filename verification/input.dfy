/**
  The id an input control gets: the explicit `id` when one is given (and
  not empty), otherwise the label lower-cased with every run of whitespace
  replaced by a single `-`.
 */
module Input {
  import opened Common
  import opened Text

  /**
    `s.replace(/\s+/g, '-')`: each maximal run of whitespace becomes one
    `-`, every other character is kept in order.
   */
  function CollapseSpaces(s: string): (r: string)
    ensures NoSpace(r)
    ensures |r| <= |s|
    decreases |s|
  {
    if s == [] then []
    else if IsSpace(s[0]) then "-" + CollapseSpaces(TrimStart(s[1..]))
    else [s[0]] + CollapseSpaces(s[1..])
  }

  /** `label.toLowerCase().replace(/\s+/g, '-')`. */
  function DerivedId(labelText: string): (r: string)
    ensures NoSpace(r)
    ensures |r| <= |labelText|
  {
    CollapseSpaces(Lower(labelText))
  }

  /** `id || label.toLowerCase().replace(/\s+/g, '-')`: an empty `id` counts as absent. */
  function InputId(id: Option<string>, labelText: string): (r: string)
    ensures id.Some? && id.value != "" ==> r == id.value
    ensures id.None? || id.value == "" ==> NoSpace(r) && |r| <= |labelText|
  {
    if id.Some? && id.value != "" then id.value else DerivedId(labelText)
  }

  /** A label without whitespace becomes its lower-cased self. */
  lemma {:induction false} CollapseNoSpace(s: string)
    requires NoSpace(s)
    ensures CollapseSpaces(s) == s
    decreases |s|
  {
    if s != [] {
      CollapseNoSpace(s[1..]);
    }
  }

  lemma DerivedIdNoSpace(labelText: string)
    requires NoSpace(labelText)
    ensures DerivedId(labelText) == Lower(labelText)
  {
    CollapseNoSpace(Lower(labelText));
  }

  /**
    Skipping the whitespace of `a + t`, when `a` has a non-whitespace
    character at `k`, only touches `a`.
   */
  lemma {:induction false} TrimStartAppend(a: string, t: string, k: nat)
    requires k < |a| && !IsSpace(a[k])
    ensures TrimStart(a + t) == TrimStart(a) + t
    decreases k
  {
    if IsSpace(a[0]) {
      assert (a + t)[1..] == a[1..] + t;
      TrimStartAppend(a[1..], t, k - 1);
    }
  }

  /**
    A maximal run of whitespace between `a` and `b` turns into exactly one
    `-` between what `a` and `b` turn into.
   */
  lemma {:induction false} RunBecomesOneDash(a: string, run: string, b: string)
    requires |run| > 0 && forall i :: 0 <= i < |run| ==> IsSpace(run[i])
    requires a == [] || !IsSpace(a[|a| - 1])
    requires b == [] || !IsSpace(b[0])
    ensures CollapseSpaces(a + run + b) == CollapseSpaces(a) + "-" + CollapseSpaces(b)
    decreases |a|, 1
  {
    if a == [] {
      var y := CollapseSpaces(b);
      calc {
        CollapseSpaces(a + run + b);
        { assert a + run + b == run + b; }
        CollapseSpaces(run + b);
        { RunAtFront(run, b); }
        "-" + y;
        CollapseSpaces(a) + "-" + y;
      }
    } else if IsSpace(a[0]) {
      RunAfterLeadingSpace(a, run, b);
    } else {
      RunAfterLeadingChar(a, run, b);
    }
  }

  /** The step of `RunBecomesOneDash` when `a` starts with whitespace. */
  lemma {:induction false} RunAfterLeadingSpace(a: string, run: string, b: string)
    requires |run| > 0 && forall i :: 0 <= i < |run| ==> IsSpace(run[i])
    requires a != [] && IsSpace(a[0]) && !IsSpace(a[|a| - 1])
    requires b == [] || !IsSpace(b[0])
    ensures CollapseSpaces(a + run + b) == CollapseSpaces(a) + "-" + CollapseSpaces(b)
    decreases |a|, 0
  {
    var rb := run + b;
    var tail := a[1..];
    var a' := TrimStart(tail);
    assert |a| >= 2 && tail[|tail| - 1] == a[|a| - 1];
    TrimStartKeepsLast(tail);
    var x, y := CollapseSpaces(a'), CollapseSpaces(b);
    calc {
      CollapseSpaces(a + run + b);
      { assert a + run + b == a + rb; }
      CollapseSpaces(a + rb);
      { LeadingSpaceThenText(a, rb); }
      "-" + CollapseSpaces(a' + rb);
      { assert a' + rb == a' + run + b; }
      "-" + CollapseSpaces(a' + run + b);
      { RunBecomesOneDash(a', run, b); }
      "-" + (x + "-" + y);
      ("-" + x) + "-" + y;
      { UnfoldSpace(a); }
      CollapseSpaces(a) + "-" + y;
    }
  }

  /** The step of `RunBecomesOneDash` when `a` starts with another character. */
  lemma {:induction false} RunAfterLeadingChar(a: string, run: string, b: string)
    requires |run| > 0 && forall i :: 0 <= i < |run| ==> IsSpace(run[i])
    requires a != [] && !IsSpace(a[0]) && !IsSpace(a[|a| - 1])
    requires b == [] || !IsSpace(b[0])
    ensures CollapseSpaces(a + run + b) == CollapseSpaces(a) + "-" + CollapseSpaces(b)
    decreases |a|, 0
  {
    var rb := run + b;
    var tail := a[1..];
    var x, y := CollapseSpaces(tail), CollapseSpaces(b);
    if tail != [] {
      assert tail[|tail| - 1] == a[|a| - 1];
    }
    calc {
      CollapseSpaces(a + run + b);
      { assert a + run + b == a + rb; }
      CollapseSpaces(a + rb);
      { CharThenText(a, rb); }
      [a[0]] + CollapseSpaces(tail + rb);
      { assert tail + rb == tail + run + b; }
      [a[0]] + CollapseSpaces(tail + run + b);
      { RunBecomesOneDash(tail, run, b); }
      [a[0]] + (x + "-" + y);
      ([a[0]] + x) + "-" + y;
      { UnfoldChar(a); }
      CollapseSpaces(a) + "-" + y;
    }
  }

  /** One step of `CollapseSpaces` on a string that starts with whitespace. */
  lemma UnfoldSpace(s: string)
    requires s != [] && IsSpace(s[0])
    ensures CollapseSpaces(s) == "-" + CollapseSpaces(TrimStart(s[1..]))
  {
  }

  /** One step of `CollapseSpaces` on a string that starts with another character. */
  lemma UnfoldChar(s: string)
    requires s != [] && !IsSpace(s[0])
    ensures CollapseSpaces(s) == [s[0]] + CollapseSpaces(s[1..])
  {
  }

  /** A leading character other than whitespace is copied, whatever follows `a`. */
  lemma CharThenText(a: string, t: string)
    requires a != [] && !IsSpace(a[0])
    ensures CollapseSpaces(a + t) == [a[0]] + CollapseSpaces(a[1..] + t)
  {
    assert (a + t)[1..] == a[1..] + t;
    UnfoldChar(a + t);
  }

  /** Skipping leading whitespace keeps a last character that is not whitespace. */
  lemma {:induction false} TrimStartKeepsLast(s: string)
    requires s != [] && !IsSpace(s[|s| - 1])
    ensures TrimStart(s) != [] && TrimStart(s)[|TrimStart(s)| - 1] == s[|s| - 1]
  {
    if IsSpace(s[0]) {
      TrimStartKeepsLast(s[1..]);
    }
  }

  /**
    A whitespace run at the front of `a` (which ends in another character)
    collapses without reaching into what follows `a`.
   */
  lemma LeadingSpaceThenText(a: string, t: string)
    requires a != [] && IsSpace(a[0]) && !IsSpace(a[|a| - 1])
    ensures CollapseSpaces(a + t) == "-" + CollapseSpaces(TrimStart(a[1..]) + t)
  {
    assert (a + t)[1..] == a[1..] + t;
    TrimStartAppend(a[1..], t, |a| - 2);
    UnfoldSpace(a + t);
  }

  /** A leading whitespace run becomes a single leading `-`. */
  lemma RunAtFront(run: string, b: string)
    requires |run| > 0 && forall i :: 0 <= i < |run| ==> IsSpace(run[i])
    requires b == [] || !IsSpace(b[0])
    ensures CollapseSpaces(run + b) == "-" + CollapseSpaces(b)
  {
    assert (run + b)[0] == run[0];
    assert (run + b)[1..] == run[1..] + b;
    TrimStartRun(run[1..], b);
  }

  /**
    The scan a global regular-expression replace performs: one pass over the
    string, emitting `-` at the start of each whitespace run and copying every
    other character.
   */
  method CollapseSpacesScan(s: string) returns (r: string)
    ensures r == CollapseSpaces(s)
  {
    r := "";
    var inRun := false;
    var i := 0;
    while i < |s|
      invariant 0 <= i <= |s|
      invariant inRun ==> i > 0 && CollapseSpaces(s) == r + CollapseSpaces(TrimStart(s[i..]))
      invariant !inRun ==> CollapseSpaces(s) == r + CollapseSpaces(s[i..])
    {
      assert s[i..][1..] == s[i + 1..];
      if IsSpace(s[i]) {
        if !inRun {
          r := r + "-";
          inRun := true;
        }
      } else {
        r := r + [s[i]];
        inRun := false;
      }
      i := i + 1;
    }
  }
}
