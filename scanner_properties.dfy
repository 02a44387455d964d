/**
 * What the line scanner of the template parser does with marker lines,
 * section contents and text outside the sections, proved about its
 * specification (`Classify`, `SectionAfter`, `Captured`).
 */
module ScannerProperties {
  import opened Wrappers
  import opened Text
  import opened Editor

  lemma AppendAssoc<T>(a: seq<T>, b: seq<T>, c: seq<T>)
    ensures a + b + c == a + (b + c)
  {
  }

  /** A non-empty sequence is its front followed by its last element. */
  lemma LastSplit<T>(c: seq<T>)
    requires c != []
    ensures c[..|c| - 1] + [c[|c| - 1]] == c
  {
  }

  /** Reading lines one after another is reading them together. */
  lemma ClassifyAllAppend(a: seq<string>, b: seq<string>)
    ensures ClassifyAll(a + b) == ClassifyAll(a) + ClassifyAll(b)
  {
    assert forall i :: 0 <= i < |a + b| ==> (a + b)[i] == if i < |a| then a[i] else b[i - |a|];
  }

  /**
   * The markers are read as markers: a begin marker switches to its
   * section, every end marker to the outside, with any whitespace around
   * them.
   */
  lemma ClassifyMarkers(sec: Section, pre: string, post: string)
    requires sec != Outside && AllSpace(pre) && AllSpace(post)
    ensures Classify(pre + BeginMarker(sec) + post) == Marker(sec)
    ensures Classify(pre + EndMarker(sec) + post) == Marker(Outside)
  {
    assert MarkerTarget(BeginMarker(sec)) == Some(sec) && MarkerTarget(EndMarker(sec)) == Some(Outside) by {
      MarkerTargets(sec, "");
    }
    assert Strip(pre + BeginMarker(sec) + post) == BeginMarker(sec) by {
      StripAround(pre, BeginMarker(sec), post);
    }
    assert Strip(pre + EndMarker(sec) + post) == EndMarker(sec) by {
      StripAround(pre, EndMarker(sec), post);
    }
  }

  /** A marker only switches the state, to its target whatever the current state, and keeps nothing. */
  lemma MarkerLine(pre: seq<ScannedLine>, target: Section, sec: Section)
    ensures SectionAfter(pre + [Marker(target)]) == target
    ensures Captured(pre + [Marker(target)], sec) == Captured(pre, sec)
  {
    assert (pre + [Marker(target)])[..|pre|] == pre;
  }

  /** A text line leaves the state alone and goes, through `Kept`, to the open section. */
  lemma TextLine(pre: seq<ScannedLine>, t: ScannedLine, sec: Section)
    requires t.Text?
    ensures SectionAfter(pre + [t]) == SectionAfter(pre)
    ensures Captured(pre + [t], sec) ==
      Captured(pre, sec) + (if sec == SectionAfter(pre) then Kept(sec, t) else [])
  {
    assert (pre + [t])[..|pre|] == pre;
  }

  /**
   * Text lines leave the state alone and go, through `Kept`, to the buffer
   * of the open section only.
   */
  lemma {:induction false} InsideSection(pre: seq<ScannedLine>, c: seq<ScannedLine>, sec: Section)
    requires forall i :: 0 <= i < |c| ==> c[i].Text?
    ensures SectionAfter(pre + c) == SectionAfter(pre)
    ensures Captured(pre + c, sec) ==
      Captured(pre, sec) + (if sec == SectionAfter(pre) then KeptAll(sec, c) else [])
  {
    if c == [] {
      assert pre + c == pre;
    } else {
      var c', t := c[..|c| - 1], c[|c| - 1];
      InsideSection(pre, c', sec);
      TextLine(pre + c', t, sec);
      assert pre + c == (pre + c') + [t];
      var k := if sec == SectionAfter(pre) then KeptAll(sec, c') else [];
      var k1 := if sec == SectionAfter(pre) then Kept(sec, t) else [];
      assert (if sec == SectionAfter(pre) then KeptAll(sec, c) else []) == k + k1;
      AppendAssoc(Captured(pre, sec), k, k1);
    }
  }

  /** Body lines are kept exactly as written, blank and `%` lines included. */
  lemma {:induction false} BodyKeptVerbatim(c: seq<string>)
    requires MarkerFree(c)
    ensures KeptAll(InBody, ClassifyAll(c)) == c
  {
    if c != [] {
      var c', line := c[..|c| - 1], c[|c| - 1];
      MarkerFreePrefix(c);
      BodyKeptVerbatim(c');
      LastSplit(c);
      ClassifyAllSnoc(c', line);
      KeptAllSnoc(InBody, ClassifyAll(c'), Classify(line));
    }
  }

  lemma MarkerFreePrefix(c: seq<string>)
    requires c != [] && MarkerFree(c)
    ensures MarkerFree(c[..|c| - 1]) && Classify(c[|c| - 1]).Text?
  {
    var c' := c[..|c| - 1];
    forall i | 0 <= i < |c'| ensures Classify(c'[i]).Text? {
      assert c'[i] == c[i];
    }
  }

  lemma ClassifyAllSnoc(c: seq<string>, line: string)
    ensures ClassifyAll(c + [line]) == ClassifyAll(c) + [Classify(line)]
  {
    ClassifyAllAppend(c, [line]);
  }

  lemma KeptAllSnoc(sec: Section, c: seq<ScannedLine>, t: ScannedLine)
    requires t.Text? && forall i :: 0 <= i < |c| ==> c[i].Text?
    ensures KeptAll(sec, c + [t]) == KeptAll(sec, c) + Kept(sec, t)
  {
    assert (c + [t])[..|c|] == c;
  }

  /**
   * Outside the body, a text line is kept, stripped, exactly when its
   * stripped form is neither blank nor a `%` comment.
   */
  lemma KeptOutsideBody(sec: Section, line: string)
    requires sec != Outside && sec != InBody && Classify(line).Text?
    ensures Kept(sec, Classify(line)) == (if IsContentLine(Strip(line)) then [Strip(line)] else [])
  {
  }

  /** A line that is already stripped content is no marker: every marker starts with `%`. */
  lemma ContentIsText(line: string)
    requires IsContentLine(line)
    ensures Classify(line) == Text(line, line)
  {
    StripOfStripped(line);
  }

  predicate AllContent(c: seq<string>) {
    forall i :: 0 <= i < |c| ==> IsContentLine(c[i])
  }

  /** Blank lines, and lines whose stripped form is a `%` comment. */
  predicate AllBlankOrComment(c: seq<string>) {
    forall i :: 0 <= i < |c| ==> AllSpace(c[i]) || Strip(c[i])[0] == '%'
  }

  /** Lines that are already stripped content are kept unchanged, all of them, in order. */
  lemma {:induction false} ContentKept(sec: Section, c: seq<string>)
    requires sec != Outside && sec != InBody && AllContent(c)
    ensures MarkerFree(c)
    ensures KeptAll(sec, ClassifyAll(c)) == c
  {
    if c != [] {
      var c', line := c[..|c| - 1], c[|c| - 1];
      AllContentPrefix(c);
      ContentKept(sec, c');
      LastSplit(c);
      ContentKeptStep(sec, c', line);
    }
  }

  lemma ContentKeptStep(sec: Section, c: seq<string>, line: string)
    requires sec != Outside && sec != InBody && IsContentLine(line)
    requires MarkerFree(c) && KeptAll(sec, ClassifyAll(c)) == c
    ensures MarkerFree(c + [line])
    ensures KeptAll(sec, ClassifyAll(c + [line])) == c + [line]
  {
    ContentIsText(line);
    MarkerFreeSnoc(c, line);
    ClassifyAllSnoc(c, line);
    KeptAllSnoc(sec, ClassifyAll(c), Classify(line));
  }

  lemma AllContentPrefix(c: seq<string>)
    requires c != [] && AllContent(c)
    ensures AllContent(c[..|c| - 1]) && IsContentLine(c[|c| - 1])
  {
    var c' := c[..|c| - 1];
    forall i | 0 <= i < |c'| ensures IsContentLine(c'[i]) {
      assert c'[i] == c[i];
    }
  }

  lemma MarkerFreeSnoc(c: seq<string>, line: string)
    requires MarkerFree(c) && Classify(line).Text?
    ensures MarkerFree(c + [line])
  {
    forall i | 0 <= i < |c| + 1 ensures Classify((c + [line])[i]).Text? {
      if i < |c| { assert (c + [line])[i] == c[i]; }
    }
  }

  /** Blank and comment lines are dropped from the solution, criteria and courses sections. */
  lemma {:induction false} CommentsDropped(sec: Section, c: seq<string>)
    requires sec != Outside && sec != InBody && MarkerFree(c) && AllBlankOrComment(c)
    ensures KeptAll(sec, ClassifyAll(c)) == []
  {
    if c != [] {
      var c', line := c[..|c| - 1], c[|c| - 1];
      BlankOrCommentPrefix(c);
      MarkerFreePrefix(c);
      CommentsDropped(sec, c');
      LastSplit(c);
      ClassifyAllSnoc(c', line);
      KeptAllSnoc(sec, ClassifyAll(c'), Classify(line));
    }
  }

  lemma BlankOrCommentPrefix(c: seq<string>)
    requires c != [] && AllBlankOrComment(c)
    ensures AllBlankOrComment(c[..|c| - 1]) && (AllSpace(c[|c| - 1]) || Strip(c[|c| - 1])[0] == '%')
  {
    var c' := c[..|c| - 1];
    forall i | 0 <= i < |c'| ensures AllSpace(c'[i]) || Strip(c'[i])[0] == '%' {
      assert c'[i] == c[i];
    }
  }

  /**
   * The buffers are never cleared: what a buffer holds after some lines is
   * a prefix of what it holds after more, so re-entering a section appends.
   */
  lemma {:induction false} CapturedGrows(pre: seq<ScannedLine>, post: seq<ScannedLine>, sec: Section)
    ensures Captured(pre, sec) <= Captured(pre + post, sec)
  {
    if post == [] {
      assert pre + post == pre;
    } else {
      var post' := post[..|post| - 1];
      CapturedGrows(pre, post', sec);
      var all := pre + post;
      assert all[..|all| - 1] == pre + post';
      var before := Captured(pre + post', sec);
      assert Captured(all, sec) == before + Captured(all, sec)[|before|..];
    }
  }

  /**
   * A whole section, read from any state, adds what `Kept` keeps of its
   * lines to its own buffer, nothing to the others, and leaves the scanner
   * outside.
   */
  lemma SectionBlock(pre: seq<ScannedLine>, sec: Section, c: seq<ScannedLine>, s: Section)
    requires sec != Outside && forall i :: 0 <= i < |c| ==> c[i].Text?
    ensures SectionAfter(pre + [Marker(sec)] + c + [Marker(Outside)]) == Outside
    ensures Captured(pre + [Marker(sec)] + c + [Marker(Outside)], s) ==
      Captured(pre, s) + (if s == sec then KeptAll(sec, c) else [])
  {
    var entered := pre + [Marker(sec)];
    MarkerLine(pre, sec, s);
    InsideSection(entered, c, s);
    MarkerLine(entered + c, Outside, s);
  }

  /** Text read outside every section is dropped. */
  lemma OutsideDropped(pre: seq<ScannedLine>, c: seq<ScannedLine>, s: Section)
    requires SectionAfter(pre) == Outside && forall i :: 0 <= i < |c| ==> c[i].Text?
    ensures SectionAfter(pre + c) == Outside
    ensures Captured(pre + c, s) == Captured(pre, s)
  {
    InsideSection(pre, c, s);
    if s == Outside {
      KeptAllOutside(c);
    }
  }

  lemma {:induction false} KeptAllOutside(c: seq<ScannedLine>)
    requires forall i :: 0 <= i < |c| ==> c[i].Text?
    ensures KeptAll(Outside, c) == []
  {
    if c != [] {
      KeptAllOutside(c[..|c| - 1]);
    }
  }
}
