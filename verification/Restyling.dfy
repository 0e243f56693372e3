/** adjustStyle as it runs: the walk to the body, the comparison property by property, the pops and the
    new span. It computes what Styles.Adjust says, for any document and any list of styles. */
module Restyling {
  import opened Properties
  import opened Strings
  import opened Styles

  class Page {
    var doc: Doc
    const styles: StyleList

    constructor (d: Doc, list: StyleList)
      ensures doc == d && styles == list
    {
      doc, styles := d, list;
    }

    /** The style attributes around the input line, innermost first. */
    method ParentStyles() returns (parents: seq<string>)
      ensures parents == Present(StylesOf(doc.levels))
    {
      parents := [];
      ghost var all := StylesOf(doc.levels);
      var i := 0;
      assert all[0..] == all;
      while i < |doc.levels|
        invariant i <= |doc.levels|
        invariant parents + Present(all[i..]) == Present(all)
      {
        assert all[i..][1..] == all[i + 1..];
        if doc.levels[i].style != [] {
          parents := parents + [doc.levels[i].style];
        }
        i := i + 1;
      }
      assert all[i..] == [];
    }

    /** Split off the first property of a trimmed style, which may be empty. */
    static method TakeProperty(style: string) returns (s: string, rest: string)
      requires style != [] && Trim(style) == style
      ensures Props(style) == NonEmpty(s) + Props(rest) && |rest| < |style|
    {
      hide Trim, IndexOfSemicolon, Props;
      PropsOfTrimmed(style);
      var semi := IndexOfSemicolon(style);
      if semi >= 0 {
        s, rest := Trim(style[..semi]), style[semi + 1..];
      } else {
        s, rest := style, [];
        EmptyStyle();
      }
    }

    /** Whether a style attribute spells out the next wanted properties, and how many: -1 if not. */
    static method Spelled(style: string, wanted: seq<string>) returns (k: int)
      ensures k == if Props(style) <= wanted then |Props(style)| else -1
    {
      hide Trim, Props;
      ghost var all := Props(style);
      var parentStyle := style;
      k := 0;
      assert [] + all == all;
      while k >= 0
        invariant -1 <= k <= |wanted|
        invariant k >= 0 ==> all == wanted[..k] + Props(parentStyle)
        invariant k < 0 ==> !(all <= wanted)
        decreases k >= 0, |parentStyle|
      {
        var t := Trimmed(parentStyle);
        if t == [] {
          EmptyStyle();
          assert wanted[..k] + [] == wanted[..k];
          break;
        }
        var s;
        s, parentStyle := TakeProperty(t);
        if s != [] {
          NextMatches(all, wanted, k, s, Props(parentStyle));
          k := if k < |wanted| && s == wanted[k] then k + 1 else -1;
        }
      }
    }

    static method Trimmed(s: string) returns (r: string)
      ensures r == Trim(s) == Trim(r) && |r| <= |s| && Props(r) == Props(s)
    {
      r := Trim(s);
      TrimTwice(s);
    }

    /** The comparison loop: how many parent styles are to be left, and how many wanted ones are kept. */
    static method Compare(parents: seq<string>, wanted: seq<string>) returns (popCount: nat, keptStyles: nat)
      ensures popCount == |parents| - Keep(parents, wanted)
      ensures keptStyles == |AllProps(parents[popCount..])| <= |wanted|
    {
      hide Props, Keep, AllProps;
      KeepSpells(parents, wanted);
      keptStyles := 0;
      var j := |parents|;
      assert parents[..j] == parents && parents[j..] == [] && wanted[0..] == wanted;
      NoProps();
      while j > 0 && keptStyles < |wanted|
        invariant 0 <= j <= |parents| && keptStyles <= |wanted|
        invariant keptStyles == |AllProps(parents[j..])|
        invariant |parents| - j + Keep(parents[..j], wanted[keptStyles..]) == Keep(parents, wanted)
        decreases j
      {
        CompareStep(parents, j, wanted[keptStyles..]);
        var k := Spelled(parents[j - 1], wanted[keptStyles..]);
        if k < 0 {
          break;
        }
        assert wanted[keptStyles..][k..] == wanted[keptStyles + k..];
        keptStyles := keptStyles + k;
        j := j - 1;
      }
      popCount := j;
      assert wanted[|wanted|..] == [] && parents[..0] == [];
    }

    /** popStyle: the input line leaves its element; what follows it there moves into a copy. */
    method PopStyle()
      requires doc.levels != []
      modifies `doc
      ensures doc == Pop(old(doc))
    {
      var span1, following := doc.levels[0], doc.levels[0].after;
      var rest := doc.(levels := doc.levels[1..]);
      doc := Beside(rest, [Span(span1.cls, span1.style, span1.before)], []);
      if following != [] {
        var span2: seq<Node> := [];
        ghost var all := following;
        while following != []
          invariant span2 + following == all
          decreases |following|
        {
          assert span2 + following == (span2 + [following[0]]) + following[1..];
          span2, following := span2 + [following[0]], following[1..];
        }
        assert span2 == all;
        BesideTwice(rest, [Span(span1.cls, span1.style, span1.before)], [Span(span1.cls, span1.style, span2)]);
        doc := Beside(doc, [], [Span(span1.cls, span1.style, span2)]);
      }
    }

    /** adjustStyle. */
    method AdjustStyle()
      modifies `doc
      ensures doc == Adjust(old(doc), styles.currentStyles)
    {
      hide Props, Keep, AllProps, Present, StylesOf, Pop;
      ghost var start := doc;
      var wanted := styles.currentStyles;
      var parents := ParentStyles();
      var popCount, keptStyles := Compare(parents, wanted);
      ghost var pops := popCount;
      while popCount > 0
        invariant 0 <= popCount <= |doc.levels| && styles.currentStyles == wanted
        invariant PopMany(doc, popCount) == PopMany(start, pops)
        decreases popCount
      {
        PopPreserves(doc);
        PopStyle();
        popCount := popCount - 1;
      }
      if keptStyles < |wanted| {
        var styleValue := JoinLoop(wanted[keptStyles..]);
        doc := Wrap(doc, styleValue);
      }
    }

    /** The do-while loop that joins the missing styles. */
    static method JoinLoop(missing: seq<string>) returns (styleValue: string)
      requires missing != []
      ensures styleValue == Join(missing)
    {
      styleValue := missing[0];
      var i := 1;
      while i < |missing|
        invariant 1 <= i <= |missing|
        invariant styleValue == Join(missing[..i])
      {
        assert missing[..i + 1] == missing[..i] + [missing[i]];
        JoinSnoc(missing[..i], missing[i]);
        styleValue := styleValue + [';'] + missing[i];
        i := i + 1;
      }
      assert missing[..i] == missing;
    }
  }

  lemma NoProps()
    ensures AllProps([]) == []
    ensures forall ss: seq<string> {:trigger Keep(ss, [])} :: Keep(ss, []) == 0
    ensures forall ws: seq<string> {:trigger Keep([], ws)} :: Keep([], ws) == 0
  {
  }

  /** One turn of the comparison, looking at the outermost style not yet compared. */
  lemma CompareStep(parents: seq<string>, j: nat, left: seq<string>)
    requires 0 < j <= |parents| && left != []
    ensures |AllProps(parents[j - 1..])| == |AllProps(parents[j..])| + |Props(parents[j - 1])|
    ensures var outer := Props(parents[j - 1]);
            Keep(parents[..j], left) == if outer <= left then 1 + Keep(parents[..j - 1], left[|outer|..]) else 0
  {
    hide Props;
    assert parents[..j][..j - 1] == parents[..j - 1];
    assert parents[j - 1..][1..] == parents[j..];
  }

  lemma BesideTwice(d: Doc, before: seq<Node>, after: seq<Node>)
    ensures Beside(Beside(d, before, []), [], after) == Beside(d, before, after)
  {
    var d1 := Beside(d, before, []);
    if d.levels == [] {
      assert d.before + before + [] == d.before + before && [] + d.after == d.after;
    } else {
      var l := d.levels[0];
      assert d1.levels[1..] == d.levels[1..];
      assert l.before + before + [] == l.before + before && [] + l.after == l.after;
    }
  }

  lemma EmptyStyle()
    ensures Props([]) == []
  {
  }

  lemma NextMatches(all: seq<string>, wanted: seq<string>, k: nat, s: string, rest: seq<string>)
    requires k <= |wanted| && all == wanted[..k] + ([s] + rest)
    ensures k < |wanted| && s == wanted[k] ==> all == wanted[..k + 1] + rest
    ensures !(k < |wanted| && s == wanted[k]) ==> !(all <= wanted)
  {
    assert all[k] == s;
    if k < |wanted| && s == wanted[k] {
      assert wanted[..k + 1] == wanted[..k] + [s];
    }
  }

  lemma TrimTwice(s: string)
    ensures Trim(Trim(s)) == Trim(s) && Props(Trim(s)) == Props(s)
  {
    TrimEnds(s);
    var t := Trim(s);
    if t != [] {
      TrimIsIdentity(t);
    }
  }

  lemma TrimEnds(s: string)
    ensures var t := Trim(s); t != [] ==> !Blank(t[0]) && !Blank(t[|t| - 1])
  {
    LeftEnd(s);
    RightEnd(TrimLeft(s));
  }

  lemma {:induction false} LeftEnd(s: string)
    ensures var t := TrimLeft(s); t != [] ==> !Blank(t[0])
  {
    if s != [] && Blank(s[0]) {
      LeftEnd(s[1..]);
    }
  }

  lemma {:induction false} RightEnd(s: string)
    requires s != [] ==> !Blank(s[0])
    ensures var t := TrimRight(s); t != [] ==> !Blank(t[0]) && !Blank(t[|t| - 1])
    decreases |s|
  {
    if s != [] && Blank(s[|s| - 1]) {
      RightEnd(s[..|s| - 1]);
    }
  }

  // ---------------------------------------------------------------- what style attributes mean

  lemma {:induction false} TrimLeftFront(a: string, rest: string)
    requires rest != [] && !Blank(rest[0])
    ensures TrimLeft(a + rest) == TrimLeft(a) + rest
    decreases |a|
  {
    if a == [] {
      assert a + rest == rest;
    } else {
      assert (a + rest)[1..] == a[1..] + rest;
      TrimLeftFront(a[1..], rest);
    }
  }

  lemma {:induction false} TrimRightBack(front: string, b: string)
    requires front != [] && !Blank(front[|front| - 1])
    ensures TrimRight(front + b) == front + TrimRight(b)
    decreases |b|
  {
    if b == [] {
      assert front + b == front;
    } else {
      assert (front + b)[..|front + b| - 1] == front + b[..|b| - 1];
      TrimRightBack(front, b[..|b| - 1]);
    }
  }

  lemma {:induction false} TrimLeftTwice(a: string)
    ensures TrimLeft(TrimLeft(a)) == TrimLeft(a)
    decreases |a|
  {
    if a != [] && Blank(a[0]) {
      TrimLeftTwice(a[1..]);
    }
  }

  lemma {:induction false} TrimLeftSnoc(b: string, c: char)
    requires Blank(c)
    ensures TrimLeft(b + [c]) == if TrimLeft(b) == [] then [] else TrimLeft(b) + [c]
    decreases |b|
  {
    if b == [] {
      assert (b + [c])[1..] == [];
    } else {
      assert (b + [c])[1..] == b[1..] + [c];
      TrimLeftSnoc(b[1..], c);
    }
  }

  lemma {:induction false} TrimRightFirst(b: string)
    ensures Trim(TrimRight(b)) == Trim(b)
    decreases |b|
  {
    if b != [] && Blank(b[|b| - 1]) {
      var front, c := b[..|b| - 1], b[|b| - 1];
      assert b == front + [c];
      TrimRightFirst(front);
      TrimLeftSnoc(front, c);
      var t := TrimLeft(front);
      if t != [] {
        assert (t + [c])[..|t + [c]| - 1] == t;
      }
    }
  }

  lemma {:induction false} TrimKeepsOut(a: string)
    requires ';' !in a
    ensures ';' !in TrimLeft(a)
    decreases |a|
  {
    if a != [] {
      TrimKeepsOut(a[1..]);
    }
  }

  lemma TrimCut(a: string, b: string)
    requires ';' !in a
    ensures Trim(a + ";" + b) == TrimLeft(a) + ";" + TrimRight(b)
    ensures IndexOfSemicolon(TrimLeft(a) + ";" + TrimRight(b)) == |TrimLeft(a)|
  {
    var l := TrimLeft(a);
    assert a + ";" + b == a + (";" + b);
    TrimLeftFront(a, ";" + b);
    assert l + (";" + b) == (l + ";") + b;
    TrimRightBack(l + ";", b);
    TrimKeepsOut(a);
    hide IndexOfSemicolon, TrimLeft, TrimRight;
    FirstSemicolon(l, TrimRight(b));
  }

  lemma SameTrim(a: string)
    ensures Trim(TrimLeft(a)) == Trim(a)
  {
    TrimLeftTwice(a);
  }

  /** Style attributes are cut at their semicolons and the parts trimmed; empty parts do not count. */
  lemma PropsMean(a: string, b: string)
    requires ';' !in a
    ensures Props(a + ";" + b) == (if Trim(a) == [] then [] else [Trim(a)]) + Props(b)
    ensures Props(a) == if Trim(a) == [] then [] else [Trim(a)]
  {
    hide Trim, TrimLeft, TrimRight, IndexOfSemicolon, Props;
    OnePart(a);
    var l, r := TrimLeft(a), TrimRight(b);
    var t := l + ";" + r;
    TrimCut(a, b);
    TrimTwice(a + ";" + b);
    PropsOfTrimmed(t);
    assert t[..|l|] == l && t[|l| + 1..] == r;
    SameTrim(a);
    TrimRightFirst(b);
    TrimTwice(b);
    TrimTwice(r);
  }

  lemma OnePart(a: string)
    requires ';' !in a
    ensures Props(a) == if Trim(a) == [] then [] else [Trim(a)]
  {
    TrimKeepsOut(a);
    TrimRightKeepsOut(TrimLeft(a));
    hide Trim;
    assert IndexOfSemicolon(Trim(a)) == -1;
  }

  lemma {:induction false} TrimRightKeepsOut(a: string)
    requires ';' !in a
    ensures ';' !in TrimRight(a)
    decreases |a|
  {
    if a != [] {
      TrimRightKeepsOut(a[..|a| - 1]);
    }
  }
}
