/**
 * The two single-line recognisers of the template parser:
 *   \criterion{<description>}{<points>}
 *   \course{<code>}{<difficulty>}{<topic>}
 * each with optional surrounding whitespace, and each group a run of
 * characters other than `}`. Both are one bounded brace-group matcher,
 * specified by the text it accepts (`Command`) in both directions.
 */
module Matchers {
  import opened Wrappers
  import opened Text

  predicate NoCloseBrace(g: string) {
    forall i :: 0 <= i < |g| ==> g[i] != '}'
  }

  predicate AllGroups(gs: seq<string>) {
    forall i :: 0 <= i < |gs| ==> NoCloseBrace(gs[i])
  }

  /** `{g}` for each group, in order. */
  function BraceGroups(gs: seq<string>): string {
    if gs == [] then "" else "{" + gs[0] + "}" + BraceGroups(gs[1..])
  }

  /** The invocation `\name{g1}...{gn}`. */
  function Command(name: string, gs: seq<string>): string {
    "\\" + name + BraceGroups(gs)
  }

  /** The index of the first `}` at or after `i`, or `|s|` when there is none. */
  function CloseIndex(s: string, i: nat): (k: nat)
    requires i <= |s|
    ensures i <= k <= |s|
    ensures forall j :: i <= j < k ==> s[j] != '}'
    ensures k < |s| ==> s[k] == '}'
    decreases |s| - i
  {
    if i == |s| || s[i] == '}' then i else CloseIndex(s, i + 1)
  }

  /** The first `}` at or after `i` is the one at `k`. */
  lemma {:induction false} CloseIndexAt(s: string, i: nat, k: nat)
    requires i <= k < |s| && s[k] == '}'
    requires forall j :: i <= j < k ==> s[j] != '}'
    ensures CloseIndex(s, i) == k
    decreases k - i
  {
    if i < k {
      CloseIndexAt(s, i + 1, k);
    }
  }

  /** Reads `n` brace groups off the front of `s`, returning them and what follows. */
  function Groups(s: string, n: nat): (r: Option<(seq<string>, string)>)
    ensures r.Some? ==> |r.value.0| == n
    decreases n
  {
    if n == 0 then Some(([], s))
    else if s == [] || s[0] != '{' then None
    else
      var k := CloseIndex(s, 1);
      if k == |s| then None
      else
        var next := Groups(s[k + 1..], n - 1);
        if next.None? then None
        else Some(([s[1..k]] + next.value.0, next.value.1))
  }

  /** What `Groups` reads is the rendering of its groups, followed by what it leaves. */
  lemma {:induction false} GroupsSound(s: string, n: nat)
    requires Groups(s, n).Some?
    ensures AllGroups(Groups(s, n).value.0)
    ensures s == BraceGroups(Groups(s, n).value.0) + Groups(s, n).value.1
    decreases n
  {
    if n == 0 {
      assert s == BraceGroups([]) + s;
    } else {
      var k := CloseIndex(s, 1);
      var next := Groups(s[k + 1..], n - 1);
      GroupsSound(s[k + 1..], n - 1);
      GroupsSoundStep(s, k, next.value.0, next.value.1);
    }
  }

  /** The inductive step of `GroupsSound`: one group in front of the groups already read. */
  lemma GroupsSoundStep(s: string, k: nat, gs: seq<string>, rest: string)
    requires 1 <= k < |s| && s[0] == '{' && s[k] == '}'
    requires forall j :: 1 <= j < k ==> s[j] != '}'
    requires AllGroups(gs) && s[k + 1..] == BraceGroups(gs) + rest
    ensures AllGroups([s[1..k]] + gs)
    ensures s == BraceGroups([s[1..k]] + gs) + rest
  {
    var g := s[1..k];
    assert NoCloseBrace(g) by {
      forall j | 0 <= j < |g| ensures g[j] != '}' {
        assert g[j] == s[j + 1];
      }
    }
    forall i | 0 <= i < |gs| + 1 ensures NoCloseBrace(([g] + gs)[i]) {
      if i > 0 { assert ([g] + gs)[i] == gs[i - 1]; }
    }
    SplitBraced(s, k);
    BraceGroupsCons(g, gs, rest);
  }

  lemma SplitBraced(s: string, k: nat)
    requires 1 <= k < |s| && s[0] == '{' && s[k] == '}'
    ensures s == "{" + s[1..k] + "}" + s[k + 1..]
  {
  }

  lemma BraceGroupsCons(g: string, gs: seq<string>, rest: string)
    ensures BraceGroups([g] + gs) + rest == "{" + g + "}" + (BraceGroups(gs) + rest)
  {
    assert ([g] + gs)[1..] == gs;
  }

  /**
   * `re.match` of `^\s*\\<name>\{([^}]*)\}...\s*$` with `n` groups: the
   * groups when `raw` matches, None otherwise.
   */
  function MatchCommand(raw: string, name: string, n: nat): (r: Option<seq<string>>)
    ensures r.Some? ==> |r.value| == n
  {
    var t := TrimLeft(raw);
    var head := "\\" + name;
    if |t| < |head| || t[..|head|] != head then None
    else
      match Groups(t[|head|..], n)
      case None => None
      case Some((gs, rest)) => if AllSpace(rest) then Some(gs) else None
  }

  /** `_CRITERION_RE.match`: two groups, description and points. */
  function MatchCriterion(raw: string): Option<seq<string>> {
    MatchCommand(raw, "criterion", 2)
  }

  /** `_COURSE_RE.match`: three groups, code, difficulty and topic. */
  function MatchCourse(raw: string): Option<seq<string>> {
    MatchCommand(raw, "course", 3)
  }

  /** A match means `raw` is the invocation of its groups with only whitespace around it. */
  lemma MatchSound(raw: string, name: string, n: nat) returns (pre: string, post: string)
    requires MatchCommand(raw, name, n).Some?
    ensures AllSpace(pre) && AllSpace(post) && AllGroups(MatchCommand(raw, name, n).value)
    ensures raw == pre + Command(name, MatchCommand(raw, name, n).value) + post
  {
    var t := TrimLeft(raw);
    var gs, rest := MatchParts(raw, name, n);
    pre, post := raw[..|raw| - |t|], rest;
    ReassembleMatch(raw, name, n, gs, rest);
    GroupsSound(t[|"\\" + name|..], n);
  }

  /** A line with `n` groups is accepted, with whitespace around it, exactly when it is written as such. */
  ghost predicate IsInvocation(raw: string, name: string, n: nat) {
    exists pre, gs, post :: |gs| == n && AllSpace(pre) && AllSpace(post) && AllGroups(gs) &&
      raw == pre + Command(name, gs) + post
  }

  /** The recogniser accepts exactly the invocations, and yields their groups. */
  lemma MatchExactly(raw: string, name: string, n: nat)
    ensures MatchCommand(raw, name, n).Some? <==> IsInvocation(raw, name, n)
  {
    if MatchCommand(raw, name, n).Some? {
      var pre, post := MatchSound(raw, name, n);
      var gs := MatchCommand(raw, name, n).value;
      assert |gs| == n && raw == pre + Command(name, gs) + post;
    }
    if IsInvocation(raw, name, n) {
      var pre, gs, post :| |gs| == n && AllSpace(pre) && AllSpace(post) && AllGroups(gs) &&
        raw == pre + Command(name, gs) + post;
      MatchComplete(pre, name, gs, post);
    }
  }

  lemma ReassembleMatch(raw: string, name: string, n: nat, gs: seq<string>, rest: string)
    requires var t := TrimLeft(raw); var head := "\\" + name;
      |head| <= |t| && t[..|head|] == head && Groups(t[|head|..], n) == Some((gs, rest))
    ensures raw == raw[..|raw| - |TrimLeft(raw)|] + Command(name, gs) + rest
  {
    var t := TrimLeft(raw);
    var head := "\\" + name;
    GroupsSound(t[|head|..], n);
    Reassemble(raw, t, name, gs, rest);
  }

  lemma Reassemble(raw: string, t: string, name: string, gs: seq<string>, rest: string)
    requires |t| <= |raw| && t == raw[|raw| - |t|..]
    requires |"\\" + name| <= |t| && t[..|"\\" + name|] == "\\" + name
    requires t[|"\\" + name|..] == BraceGroups(gs) + rest
    ensures raw == raw[..|raw| - |t|] + Command(name, gs) + rest
  {
    var head := "\\" + name;
    assert t == t[..|head|] + t[|head|..];
    assert raw == raw[..|raw| - |t|] + raw[|raw| - |t|..];
  }

  /** The parts a successful `MatchCommand` went through. */
  lemma MatchParts(raw: string, name: string, n: nat) returns (gs: seq<string>, rest: string)
    requires MatchCommand(raw, name, n).Some?
    ensures var t := TrimLeft(raw); var head := "\\" + name;
      |head| <= |t| && t[..|head|] == head &&
      Groups(t[|head|..], n) == Some((gs, rest)) && AllSpace(rest) &&
      MatchCommand(raw, name, n) == Some(gs)
  {
    var t := TrimLeft(raw);
    var head := "\\" + name;
    gs, rest := Groups(t[|head|..], n).value.0, Groups(t[|head|..], n).value.1;
  }

  /** `gs` put in front of the groups of a successful read. */
  function Prepend(gs: seq<string>, o: Option<(seq<string>, string)>): Option<(seq<string>, string)> {
    if o.None? then None else Some((gs + o.value.0, o.value.1))
  }

  lemma PrependTwice(g: string, gs: seq<string>, o: Option<(seq<string>, string)>)
    ensures Prepend([g], Prepend(gs, o)) == Prepend([g] + gs, o)
  {
    if o.Some? {
      assert [g] + (gs + o.value.0) == ([g] + gs) + o.value.0;
    }
  }

  /** Reading groups off their own rendering gives them back, then carries on with the rest. */
  lemma {:induction false} GroupsOfBraceGroups(gs: seq<string>, rest: string, m: nat)
    requires AllGroups(gs)
    ensures Groups(BraceGroups(gs) + rest, |gs| + m) == Prepend(gs, Groups(rest, m))
  {
    if gs == [] {
      GroupsOfNoGroups(gs, rest, m);
    } else {
      AllGroupsTail(gs);
      GroupsOfBraceGroups(gs[1..], rest, m);
      GroupsOfFirstGroup(gs, rest, m);
    }
  }

  lemma AllGroupsTail(gs: seq<string>)
    requires gs != [] && AllGroups(gs)
    ensures NoCloseBrace(gs[0]) && AllGroups(gs[1..])
  {
    forall i | 0 <= i < |gs| - 1 ensures NoCloseBrace(gs[1..][i]) {
      assert gs[1..][i] == gs[i + 1];
    }
  }

  /** The inductive step of `GroupsOfBraceGroups`: the first group is read off, then the rest. */
  lemma GroupsOfFirstGroup(gs: seq<string>, rest: string, m: nat)
    requires gs != [] && NoCloseBrace(gs[0])
    requires Groups(BraceGroups(gs[1..]) + rest, |gs[1..]| + m) == Prepend(gs[1..], Groups(rest, m))
    ensures Groups(BraceGroups(gs) + rest, |gs| + m) == Prepend(gs, Groups(rest, m))
  {
    var g, gs' := gs[0], gs[1..];
    var tail := BraceGroups(gs') + rest;
    var n := |gs| + m;
    var o := Groups(rest, m);
    assert [g] + gs' == gs;
    assert A: Groups(tail, n - 1) == Prepend(gs', o);
    BraceGroupsCons(g, gs', rest);
    assert BraceGroups(gs) + rest == "{" + g + "}" + tail;
    GroupsStep(BraceGroups(gs) + rest, g, tail, n);
    PrependTwice(g, gs', o);
  }

  lemma GroupsOfNoGroups(gs: seq<string>, rest: string, m: nat)
    requires gs == []
    ensures Groups(BraceGroups(gs) + rest, |gs| + m) == Prepend(gs, Groups(rest, m))
  {
    assert BraceGroups(gs) + rest == rest;
    var o := Groups(rest, m);
    if o.Some? {
      assert gs + o.value.0 == o.value.0;
    }
  }

  /** One rendered group in front: `Groups` takes it and reads the rest from what follows. */
  lemma GroupsStep(s: string, g: string, tail: string, n: nat)
    requires NoCloseBrace(g) && s == "{" + g + "}" + tail && n > 0
    ensures Groups(s, n) == Prepend([g], Groups(tail, n - 1))
  {
    BracedParts(g, tail);
  }

  /** The parts `Groups` finds in one rendered group. */
  lemma BracedParts(g: string, tail: string)
    requires NoCloseBrace(g)
    ensures var s := "{" + g + "}" + tail;
      s[0] == '{' && CloseIndex(s, 1) == |g| + 1 && s[1..|g| + 1] == g && s[|g| + 2..] == tail
  {
    var s := "{" + g + "}" + tail;
    forall j | 1 <= j < |g| + 1 ensures s[j] != '}' {
      assert s[j] == g[j - 1];
    }
    CloseIndexAt(s, 1, |g| + 1);
  }

  /** Every invocation with whitespace around it matches, and yields exactly its groups. */
  lemma MatchComplete(pre: string, name: string, gs: seq<string>, post: string)
    requires AllSpace(pre) && AllSpace(post) && AllGroups(gs)
    ensures MatchCommand(pre + Command(name, gs) + post, name, |gs|) == Some(gs)
  {
    var raw := pre + Command(name, gs) + post;
    var head := "\\" + name;
    var body := BraceGroups(gs) + post;
    assert raw == pre + (head + body);
    TrimLeftAfterSpace(pre, head + body);
    var t := head + body;
    assert t[..|head|] == head;
    assert t[|head|..] == body;
    GroupsOfBraceGroups(gs, post, 0);
    assert gs + [] == gs;
  }

  /** The legacy two-argument course line is not a course line. */
  lemma TwoArgumentCourseRejected(code: string, difficulty: string)
    requires NoCloseBrace(code) && NoCloseBrace(difficulty)
    ensures MatchCourse("\\course{" + code + "}{" + difficulty + "}") == None
  {
    var gs := [code, difficulty];
    var raw := "\\course{" + code + "}{" + difficulty + "}";
    assert BraceGroups(gs[1..]) == "{" + difficulty + "}" + BraceGroups([]);
    assert raw == Command("course", gs);
    var head := "\\course";
    assert raw[0] == '\\';
    TrimLeftAfterSpace("", raw);
    assert "" + raw == raw;
    assert raw[|head|..] == BraceGroups(gs) + "";
    GroupsOfBraceGroups(gs, "", 1);
  }
}
