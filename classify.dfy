/**
 * The endpoint classifier and direction resolver of the connectivity
 * builder: how one textual port-map actual is read (outer parentheses
 * dropped, a `name(slice)` split, a kind chosen) and how a declared
 * direction becomes a role on a net.
 */
module Classify {
  import opened Wrappers
  import opened Text
  import opened Design

  /** Nesting depth after `t[..i]`: opening minus closing parentheses. */
  function Depth(t: string, i: nat): int
    requires i <= |t|
  {
    if i == 0 then 0
    else Depth(t, i - 1) + (if t[i - 1] == '(' then 1 else if t[i - 1] == ')' then -1 else 0)
  }

  /** The depth never goes negative over the whole string and ends at zero. */
  predicate Balanced(t: string) {
    (forall i :: 0 <= i <= |t| ==> Depth(t, i) >= 0) && Depth(t, |t|) == 0
  }

  /** Starts with `(` and ends with `)`. */
  predicate Wrapped(t: string) {
    |t| > 0 && t[0] == '(' && t[|t| - 1] == ')'
  }

  /** What `_strip_outer_parens` returns: strip, then peel balanced outer pairs. */
  function StripParens(s: string): (r: string)
    ensures IsTrimmed(r)
    decreases |s|
  {
    var t := Trim(s);
    if Wrapped(t) && Balanced(t) then StripParens(t[1..|t| - 1]) else t
  }

  /** Nothing is left to peel from the result. */
  lemma {:induction false} StripParensIrreducible(s: string)
    ensures !(Wrapped(StripParens(s)) && Balanced(StripParens(s)))
    decreases |s|
  {
    var t := Trim(s);
    if Wrapped(t) && Balanced(t) {
      StripParensIrreducible(t[1..|t| - 1]);
    }
  }

  /** Stripping twice is stripping once. */
  lemma StripParensIdempotent(s: string)
    ensures StripParens(StripParens(s)) == StripParens(s)
  {
    var r := StripParens(s);
    StripParensIrreducible(s);
    TrimOfTrimmed(r);
  }

  /** The result is a contiguous piece of the input. */
  lemma {:induction false} StripParensInfix(s: string)
    ensures exists lo, hi :: 0 <= lo <= hi <= |s| && s[lo..hi] == StripParens(s)
    decreases |s|
  {
    var t := Trim(s);
    var lo0 := TrimStart(s);
    if Wrapped(t) && Balanced(t) {
      var inner := t[1..|t| - 1];
      StripParensInfix(inner);
      var lo, hi :| 0 <= lo <= hi <= |inner| && inner[lo..hi] == StripParens(inner);
      InnerSlice(s, lo0, t, lo, hi);
    } else {
      assert s[lo0..lo0 + |t|] == StripParens(s);
    }
  }

  /** A slice of `t` without its first and last characters, where `t` is a slice of `s`. */
  lemma InnerSlice(s: string, lo0: nat, t: string, lo: nat, hi: nat)
    requires 2 <= |t| && lo0 + |t| <= |s| && s[lo0..lo0 + |t|] == t
    requires lo <= hi <= |t| - 2
    ensures lo0 + 1 + hi <= |s| && s[lo0 + 1 + lo..lo0 + 1 + hi] == t[1..|t| - 1][lo..hi]
  {
    var x, y := s[lo0 + 1 + lo..lo0 + 1 + hi], t[1..|t| - 1][lo..hi];
    forall k | 0 <= k < |x| ensures x[k] == y[k] {
      assert s[lo0 + 1 + lo + k] == s[lo0..lo0 + |t|][1 + lo + k];
    }
  }

  /** A change beyond `strip()` happens only to a wrapped, balanced text. */
  lemma StripParensOnlyBalanced(s: string)
    requires StripParens(s) != Trim(s)
    ensures Wrapped(Trim(s)) && Balanced(Trim(s))
  {
  }

  lemma StripParensOfTrim(s: string)
    ensures StripParens(Trim(s)) == StripParens(s)
  {
    TrimIdempotent(s);
  }

  lemma StripParensStep(t: string)
    requires IsTrimmed(t) && Wrapped(t) && Balanced(t)
    ensures StripParens(t) == StripParens(t[1..|t| - 1])
  {
    TrimOfTrimmed(t);
  }

  lemma StripParensStop(t: string)
    requires IsTrimmed(t) && !(Wrapped(t) && Balanced(t))
    ensures StripParens(t) == t
  {
    TrimOfTrimmed(t);
  }

  /** The depth scan inside `_strip_outer_parens`, stopping at the first negative depth. */
  method ScanBalanced(t: string) returns (ok: bool)
    ensures ok == Balanced(t)
  {
    var depth := 0;
    ok := true;
    var i := 0;
    while i < |t|
      invariant 0 <= i <= |t|
      invariant depth == Depth(t, i)
      invariant forall k :: 0 <= k <= i ==> Depth(t, k) >= 0
    {
      if t[i] == '(' {
        depth := depth + 1;
      } else if t[i] == ')' {
        depth := depth - 1;
        if depth < 0 {
          assert Depth(t, i + 1) < 0;
          ok := false;
          return;
        }
      }
      i := i + 1;
    }
    ok := depth == 0;
  }

  /** `_strip_outer_parens`: peel while the text starts with `(` and ends with `)`. */
  method StripOuterParens(s: string) returns (t: string)
    ensures t == StripParens(s)
  {
    t := Trim(s);
    StripParensOfTrim(s);
    while |t| > 0 && t[0] == '(' && t[|t| - 1] == ')'
      invariant IsTrimmed(t) && StripParens(t) == StripParens(s)
      decreases |t|
    {
      var ok := ScanBalanced(t);
      if ok {
        StripParensStep(t);
        StripParensOfTrim(t[1..|t| - 1]);
        t := Trim(t[1..|t| - 1]);
      } else {
        break;
      }
    }
    StripParensStop(t);
  }

  /** What `_split_base_slice` returns for `name(slice)`, `name(i)` or `name`. */
  function SplitBaseSlice(a0: string): (r: (string, Option<string>))
    ensures r.1.None? ==> r.0 == Trim(a0)
    ensures r.1.Some? ==> IsIdentifier(r.0) && EndsWith(Trim(a0), ")")
    ensures r.1.Some? <==>
      var a := Trim(a0);
      '(' in a && EndsWith(a, ")") && IsIdentifier(Trim(a[..IndexOf(a, '(')]))
  {
    var a := Trim(a0);
    if '(' in a && EndsWith(a, ")") then
      var i := IndexOf(a, '(');
      var base := Trim(a[..i]);
      if IsIdentifier(base) then (base, Some(Trim(a[i + 1..|a| - 1]))) else (a, None)
    else (a, None)
  }

  /** Stripping a text that starts with a non-space leaves whitespace only at its end. */
  lemma TrimHead(head: string)
    requires |head| > 0 && !IsSpace(head[0])
    ensures exists w :: AllSpace(w) && head == Trim(head) + w
  {
    TrimParts(head);
    var p, w :| AllSpace(p) && AllSpace(w) && head == p + Trim(head) + w;
    assert p == [];
    assert head == Trim(head) + w;
  }

  /** A split gives back the text: base, whitespace, `(`, slice within whitespace, `)`. */
  lemma SplitBaseSliceRebuilds(a0: string)
    requires SplitBaseSlice(a0).1.Some?
    ensures exists w1, w2, w3 :: (AllSpace(w1) && AllSpace(w2) && AllSpace(w3)
      && Trim(a0) == SplitBaseSlice(a0).0 + w1 + "(" + w2 + SplitBaseSlice(a0).1.value + w3 + ")")
  {
    var a := Trim(a0);
    var i := IndexOf(a, '(');
    assert i < |a| - 1;
    var r := SplitBaseSlice(a0);
    assert IsIdentifier(r.0);
    assert r == (Trim(a[..i]), Some(Trim(a[i + 1..|a| - 1])));
    Rebuild(a, i);
  }

  /** `a` trimmed, with `(` at `i` and `)` at its end, is the two trimmed parts with whitespace around them. */
  lemma Rebuild(a: string, i: nat)
    requires IsTrimmed(a) && 0 < i < |a| - 1 && a[i] == '(' && a[|a| - 1] == ')'
    ensures exists w1, w2, w3 :: (AllSpace(w1) && AllSpace(w2) && AllSpace(w3)
      && a == Trim(a[..i]) + w1 + "(" + w2 + Trim(a[i + 1..|a| - 1]) + w3 + ")")
  {
    var head, mid := a[..i], a[i + 1..|a| - 1];
    SplitAround(a, i);
    TrimHead(head);
    var w1 :| AllSpace(w1) && head == Trim(head) + w1;
    TrimParts(mid);
    var w2, w3 :| AllSpace(w2) && AllSpace(w3) && mid == w2 + Trim(mid) + w3;
    Regroup(Trim(head), w1, w2, Trim(mid), w3);
  }

  lemma SplitAround(a: string, i: nat)
    requires i < |a| - 1 && a[i] == '(' && a[|a| - 1] == ')'
    ensures a == a[..i] + "(" + a[i + 1..|a| - 1] + ")"
  {
    assert a == a[..i] + [a[i]] + a[i + 1..|a| - 1] + [a[|a| - 1]];
  }

  lemma Regroup(base: string, w1: string, w2: string, sl: string, w3: string)
    ensures (base + w1) + "(" + (w2 + sl + w3) + ")" == base + w1 + "(" + w2 + sl + w3 + ")"
  {
  }

  datatype ActualKind = OpenActual | ConstActual | SignalActual | EPortActual | ExprActual

  /** Kind, display label and bundle base of one actual. */
  datatype Classified = Classified(kind: ActualKind, text: string, base: Option<string>)

  /** `0`, `1`, or a character, string, hex or binary literal (already lower-cased). */
  predicate IsLiteral(al: string) {
    al == "0" || al == "1" || StartsWith(al, "'") || StartsWith(al, "\"")
    || StartsWith(al, "x\"") || StartsWith(al, "b\"")
  }

  /** `_classify_actual`: never fails; the label is always the paren-stripped text. */
  function ClassifyActual(actual: string, fi: FileInfo): (c: Classified)
    ensures c.text == StripParens(actual)
    ensures c.kind == OpenActual <==> Lower(c.text) == "open"
    ensures c.base.Some? <==> c.kind == SignalActual || c.kind == EPortActual
  {
    var a := StripParens(actual);
    var al := Lower(a);
    if al == "open" then Classified(OpenActual, a, None)
    else if IsLiteral(al) then Classified(ConstActual, a, None)
    else
      var base := SplitBaseSlice(a).0;
      if base in SignalNames(fi) then Classified(SignalActual, a, Some(base))
      else if base in PortNames(fi) then Classified(EPortActual, a, Some(base))
      else Classified(ExprActual, a, None)
  }

  /**
   * The classification table: `open` first, then literals, then a base name
   * found among the signals, then among the ports (a signal wins), and
   * anything else is an opaque expression. Signal and port actuals carry
   * their base name for bus bundling; the others carry none.
   */
  lemma ClassifyActualCases(actual: string, fi: FileInfo)
    ensures var c := ClassifyActual(actual, fi);
      var al := Lower(c.text);
      var base := SplitBaseSlice(c.text).0;
      && (c.kind == ConstActual <==> al != "open" && IsLiteral(al))
      && (c.kind == SignalActual <==> al != "open" && !IsLiteral(al) && base in SignalNames(fi))
      && (c.kind == EPortActual <==>
            al != "open" && !IsLiteral(al) && base !in SignalNames(fi) && base in PortNames(fi))
      && (c.kind == ExprActual <==>
            al != "open" && !IsLiteral(al) && base !in SignalNames(fi) && base !in PortNames(fi))
      && (c.base.Some? ==> c.base.value == base)
  {
  }

  /** `_port_dir_map_for_entity`: port name to lower-cased direction. */
  function PortDirMap(ports: seq<Port>): map<string, string>
    decreases |ports|
  {
    if ports == [] then map[]
    else
      var last := ports[|ports| - 1];
      PortDirMap(ports[..|ports| - 1])[last.name := Lower(last.direction)]
  }

  /** Every declared port has an entry, and it is the lower-cased direction of its last declaration. */
  lemma {:induction false} PortDirMapLastWins(ports: seq<Port>)
    ensures forall i :: 0 <= i < |ports| ==> ports[i].name in PortDirMap(ports)
    ensures forall n :: n in PortDirMap(ports) ==>
      exists i :: (0 <= i < |ports| && ports[i].name == n && PortDirMap(ports)[n] == Lower(ports[i].direction)
        && forall j :: i < j < |ports| ==> ports[j].name != n)
    decreases |ports|
  {
    if ports != [] {
      var init := ports[..|ports| - 1];
      var last := ports[|ports| - 1];
      var m := PortDirMap(ports);
      PortDirMapLastWins(init);
      forall i | 0 <= i < |ports| ensures ports[i].name in m {
        if i < |init| { assert ports[i] == init[i]; }
      }
      forall n | n in m
        ensures exists i :: (0 <= i < |ports| && ports[i].name == n && m[n] == Lower(ports[i].direction)
          && forall j :: i < j < |ports| ==> ports[j].name != n)
      {
        if n == last.name {
          assert ports[|ports| - 1].name == n;
        } else {
          var i :| (0 <= i < |init| && init[i].name == n && PortDirMap(init)[n] == Lower(init[i].direction)
            && forall j :: i < j < |init| ==> init[j].name != n);
          assert ports[i] == init[i];
          forall j | i < j < |ports| ensures ports[j].name != n {
            if j < |init| { assert ports[j] == init[j]; }
          }
        }
      }
    }
  }

  /** The role of an endpoint on a net. */
  datatype Role = Driver | Sink | Unknown

  /** `out`/`buffer` drive the net, `in` is driven by it, anything else is unknown. */
  function RoleOf(dir: string): (r: Role)
    ensures r == Driver <==> dir == "out" || dir == "buffer"
    ensures r == Sink <==> dir == "in"
  {
    if dir == "out" || dir == "buffer" then Driver
    else if dir == "in" then Sink
    else Unknown
  }
}
