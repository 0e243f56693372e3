/** CSS property strings as WebTerminal keeps them: the list of current styles that SGR sequences edit,
    and style attributes that join several of them with semicolons. */
module Properties {
  import opened Strings
  import opened Words

  // ---------------------------------------------------------------- strings

  predicate Blank(c: char) {
    c <= ' '
  }

  function TrimLeft(s: string): (r: string)
    ensures |r| <= |s|
  {
    if s == [] || !Blank(s[0]) then s else TrimLeft(s[1..])
  }

  function TrimRight(s: string): (r: string)
    ensures |r| <= |s|
  {
    if s == [] || !Blank(s[|s| - 1]) then s else TrimRight(s[..|s| - 1])
  }

  function Trim(s: string): (r: string)
    ensures |r| <= |s|
  {
    TrimRight(TrimLeft(s))
  }

  /** The position of the first semicolon, or -1. */
  function IndexOfSemicolon(s: string): (i: int)
    ensures -1 <= i < |s|
    ensures i >= 0 ==> s[i] == ';' && ';' !in s[..i]
    ensures i == -1 ==> ';' !in s
  {
    if s == [] then -1
    else if s[0] == ';' then 0
    else
      var i := IndexOfSemicolon(s[1..]);
      if i < 0 then (assert s == [s[0]] + s[1..]; -1)
      else (assert s[..i + 1] == [s[0]] + s[1..][..i]; i + 1)
  }

  predicate StartsWith(s: string, prefix: string) {
    prefix <= s
  }

  // ---------------------------------------------------------------- style attributes

  /** The properties of a style attribute. */
  function Props(style: string): seq<string>
    decreases |style|
  {
    var t := Trim(style);
    if t == [] then [] else
    var semi := IndexOfSemicolon(t);
    if semi < 0 then [t] else
    NonEmpty(Trim(t[..semi])) + Props(t[semi + 1..])
  }

  function NonEmpty(p: string): seq<string> {
    if p == [] then [] else [p]
  }

  /** A property that survives a trip through a style attribute. */
  predicate Clean(p: string) {
    p != [] && !Blank(p[0]) && !Blank(p[|p| - 1]) && ';' !in p
  }

  predicate AllClean(ps: seq<string>) {
    forall i :: 0 <= i < |ps| ==> Clean(ps[i])
  }

  lemma TrimIsIdentity(s: string)
    requires s != [] && !Blank(s[0]) && !Blank(s[|s| - 1])
    ensures Trim(s) == s
  {
  }

  lemma {:induction false} JoinEnds(ps: seq<string>)
    requires ps != [] && AllClean(ps)
    ensures Join(ps) != [] && !Blank(Join(ps)[0]) && !Blank(Join(ps)[|Join(ps)| - 1])
  {
    assert Clean(ps[0]);
    if |ps| > 1 {
      JoinEnds(ps[1..]);
    }
  }

  lemma FirstSemicolon(p: string, rest: string)
    requires ';' !in p
    ensures IndexOfSemicolon(p + [';'] + rest) == |p|
  {
    var s := p + [';'] + rest;
    var i := IndexOfSemicolon(s);
    assert s[|p|] == ';' && forall k :: 0 <= k < |p| ==> s[k] == p[k] != ';';
    assert forall k :: 0 <= k < i ==> s[..i][k] == s[k] != ';';
  }

  /** One turn of the property loop on a trimmed style. */
  lemma PropsOfTrimmed(t: string)
    requires t != [] && Trim(t) == t
    ensures IndexOfSemicolon(t) < 0 ==> Props(t) == [t]
    ensures IndexOfSemicolon(t) >= 0 ==>
              Props(t) == NonEmpty(Trim(t[..IndexOfSemicolon(t)])) + Props(t[IndexOfSemicolon(t) + 1..])
  {
    hide Trim, IndexOfSemicolon;
  }

  lemma FirstProp(p: string, rest: string)
    requires Clean(p) && rest != [] && !Blank(rest[|rest| - 1])
    ensures Props(p + [';'] + rest) == [p] + Props(rest)
  {
    var s := p + [';'] + rest;
    TrimIsIdentity(s);
    TrimIsIdentity(p);
    FirstSemicolon(p, rest);
    hide Trim, IndexOfSemicolon, Props;
    PropsOfTrimmed(s);
    assert s[..|p|] == p && s[|p| + 1..] == rest;
  }

  /** Joining and splitting: a style attribute written by adjustStyle reads back as its list. */
  lemma {:induction false} PropsOfJoin(ps: seq<string>)
    requires ps != [] && AllClean(ps)
    ensures Props(Join(ps)) == ps
  {
    assert Clean(ps[0]);
    if |ps| == 1 {
      TrimIsIdentity(ps[0]);
      assert IndexOfSemicolon(ps[0]) == -1;
      assert ps == [ps[0]];
    } else {
      hide Props, Clean;
      JoinEnds(ps[1..]);
      FirstProp(ps[0], Join(ps[1..]));
      PropsOfJoin(ps[1..]);
      assert ps == [ps[0]] + ps[1..];
    }
  }

  // ---------------------------------------------------------------- current styles

  /** The styles that do not set the property `name`. */
  function Without(styles: seq<string>, name: string): (r: seq<string>)
    ensures forall i :: 0 <= i < |r| ==> !StartsWith(r[i], name)
  {
    if styles == [] then []
    else if StartsWith(styles[0], name) then Without(styles[1..], name)
    else [styles[0]] + Without(styles[1..], name)
  }

  /** The list when the first `i` styles have been looked at. */
  function Cleared(styles: seq<string>, i: nat, name: string): seq<string>
    requires i <= |styles|
  {
    styles[..i] + Without(styles[i..], name)
  }

  lemma ClearedEnds(styles: seq<string>, name: string)
    ensures Cleared(styles, 0, name) == Without(styles, name) && Cleared(styles, |styles|, name) == styles
  {
    hide Without;
    assert styles[..0] == [] && styles[0..] == styles && styles[..|styles|] == styles && styles[|styles|..] == [];
    assert Without([], name) == [] by { ClearNothing(name); }
  }

  lemma ClearNothing(name: string)
    ensures Without([], name) == []
  {
  }

  lemma ClearedStep(styles: seq<string>, i: nat, name: string)
    requires i < |styles|
    ensures StartsWith(styles[i], name) ==>
              Cleared(styles[..i] + styles[i + 1..], i, name) == Cleared(styles, i, name)
    ensures !StartsWith(styles[i], name) ==> Cleared(styles, i + 1, name) == Cleared(styles, i, name)
  {
    hide StartsWith;
    var shorter := styles[..i] + styles[i + 1..];
    assert styles[i..][1..] == styles[i + 1..] && styles[..i + 1] == styles[..i] + [styles[i]];
    assert shorter[..i] == styles[..i] && shorter[i..] == styles[i + 1..];
  }

  function Setting(name: string, value: string): string {
    name + [' '] + value
  }

  function Push(styles: seq<string>, name: string, value: Option<string>): seq<string> {
    Without(styles, name) + (if value == None then [] else [Setting(name, value.value)])
  }

  class StyleList {
    var currentStyles: seq<string>

    constructor ()
      ensures currentStyles == []
    {
      currentStyles := [];
    }

    /** pushSimpleStyle: removes every setting of the property in place, then appends the new one. */
    method PushSimpleStyle(name: string, value: Option<string>)
      modifies this
      ensures currentStyles == Push(old(currentStyles), name, value)
    {
      hide StartsWith, Cleared, Without;
      var nstyles := |currentStyles|;
      var i := 0;
      ClearedEnds(currentStyles, name);
      while i < nstyles
        invariant 0 <= i <= nstyles == |currentStyles|
        invariant Cleared(currentStyles, i, name) == Without(old(currentStyles), name)
        decreases nstyles - i
      {
        var style := currentStyles[i];
        ClearedStep(currentStyles, i, name);
        if StartsWith(style, name) {
          currentStyles := currentStyles[..i] + currentStyles[i + 1..];
          nstyles := nstyles - 1;
        } else {
          i := i + 1;
        }
      }
      ClearedEnds(currentStyles, name);
      if value != None {
        currentStyles := currentStyles + [Setting(name, value.value)];
      }
    }

    /** The SGR control sequence: one parameter after the other. */
    method SelectGraphicRendition(codes: seq<int>)
      modifies this
      ensures currentStyles == Rendition(old(currentStyles), codes)
    {
      hide PushAll, Settings, Push;
      var i := 0;
      assert codes[0..] == codes;
      while i < |codes|
        invariant i <= |codes|
        invariant Rendition(currentStyles, codes[i..]) == Rendition(old(currentStyles), codes)
      {
        assert codes[i..][1..] == codes[i + 1..];
        if codes[i] <= 0 {
          currentStyles := [];
        } else {
          PushSimpleStyles(Settings(codes[i]));
        }
        i := i + 1;
      }
      assert codes[i..] == [];
    }

    method PushSimpleStyles(sets: seq<Set>)
      modifies this
      ensures currentStyles == PushAll(old(currentStyles), sets)
    {
      hide Push;
      var k := 0;
      assert sets[0..] == sets;
      while k < |sets|
        invariant k <= |sets|
        invariant PushAll(currentStyles, sets[k..]) == PushAll(old(currentStyles), sets)
      {
        assert sets[k..][1..] == sets[k + 1..];
        PushSimpleStyle(sets[k].name, sets[k].value);
        k := k + 1;
      }
      assert sets[k..] == [];
    }
  }

  // ---------------------------------------------------------------- SGR

  datatype Set = Set(name: string, value: Option<string>)

  const WEIGHT := "font-weight:"
  const DECORATION := "text-decoration:"
  const COLOR := "color:"
  const BACKGROUND := "background-color:"

  function ColorName(i: int): string
    requires 0 <= i <= 7
  {
    match i
    case 0 => "black"
    case 1 => "red"
    case 2 => "green"
    case 3 => "yellow"
    case 4 => "blue"
    case 5 => "magenta"
    case 6 => "cyan"
    case _ => "white"
  }

  /** What a positive SGR parameter sets; the default colors are white on black swapped. */
  function Settings(code: int): (sets: seq<Set>)
  {
    if code == 1 then [Set(WEIGHT, Some("bold"))]
    else if code == 22 then [Set(WEIGHT, None)]
    else if code == 4 then [Set(DECORATION, Some("underline"))]
    else if code == 24 then [Set(DECORATION, None)]
    else if code == 7 then [Set(COLOR, Some("white")), Set(BACKGROUND, Some("black"))]
    else if code == 27 then [Set(COLOR, None), Set(BACKGROUND, None)]
    else if 30 <= code <= 37 then [Set(COLOR, Some(ColorName(code - 30)))]
    else if code == 39 then [Set(COLOR, None)]
    else if 40 <= code <= 47 then [Set(BACKGROUND, Some(ColorName(code - 40)))]
    else if code == 49 then [Set(BACKGROUND, None)]
    else []
  }

  function PushAll(styles: seq<string>, sets: seq<Set>): seq<string>
    decreases |sets|
  {
    if sets == [] then styles else PushAll(Push(styles, sets[0].name, sets[0].value), sets[1..])
  }

  function Rendition(styles: seq<string>, codes: seq<int>): seq<string>
    decreases |codes|
  {
    if codes == [] then styles
    else Rendition(if codes[0] <= 0 then [] else PushAll(styles, Settings(codes[0])), codes[1..])
  }

  /** What a parameter does to one property: nothing, or a new value (none is the default). */
  function Change(sets: seq<Set>, name: string): Option<Option<string>>
    decreases |sets|
  {
    if sets == [] then None
    else if sets[|sets| - 1].name == name then Some(sets[|sets| - 1].value)
    else Change(sets[..|sets| - 1], name)
  }

  /** The value of a property after some parameters, looking back from the end: the latest one that
      resets everything or sets the property decides (section 8.3.117 of ECMA-48). */
  function Effect(codes: seq<int>, name: string): Option<string>
    decreases |codes|
  {
    if codes == [] then None else
    var last := codes[|codes| - 1];
    if last <= 0 then None
    else
      match Change(Settings(last), name)
      case Some(v) => v
      case None => Effect(codes[..|codes| - 1], name)
  }

  predicate IsName(name: string) {
    name in {WEIGHT, DECORATION, COLOR, BACKGROUND}
  }

  /** The settings of one property in a list. */
  function Only(styles: seq<string>, name: string): seq<string> {
    if styles == [] then []
    else if StartsWith(styles[0], name) then [styles[0]] + Only(styles[1..], name)
    else Only(styles[1..], name)
  }

  function Expected(name: string, value: Option<string>): seq<string> {
    if value == None then [] else [Setting(name, value.value)]
  }

  lemma NamesDiffer(a: string, b: string, s: string)
    requires IsName(a) && IsName(b) && a != b
    ensures !(StartsWith(s, a) && StartsWith(s, b))
  {
    assert a[0] != b[0];
  }

  lemma {:induction false} OnlyConcat(a: seq<string>, b: seq<string>, name: string)
    ensures Only(a + b, name) == Only(a, name) + Only(b, name)
  {
    hide StartsWith;
    if a == [] {
      assert a + b == b;
    } else {
      assert (a + b)[1..] == a[1..] + b;
      OnlyConcat(a[1..], b, name);
    }
  }

  lemma {:induction false} OnlyWithout(styles: seq<string>, gone: string, name: string)
    requires IsName(gone) && IsName(name)
    ensures Only(Without(styles, gone), name) == if gone == name then [] else Only(styles, name)
  {
    hide IsName;
    if styles != [] {
      OnlyWithout(styles[1..], gone, name);
      if gone != name {
        NamesDiffer(gone, name, styles[0]);
      }
      var first := if StartsWith(styles[0], gone) then [] else [styles[0]];
      OnlyConcat(first, Without(styles[1..], gone), name);
      assert Only([], name) == [];
      assert first != [] ==> Only(first, name) == if StartsWith(styles[0], name) then [styles[0]] else [];
    }
  }

  lemma OnlyPush(styles: seq<string>, setting: Set, name: string)
    requires IsName(setting.name) && IsName(name)
    ensures Only(Push(styles, setting.name, setting.value), name)
         == if setting.name == name then Expected(name, setting.value) else Only(styles, name)
  {
    hide IsName, Without, Only;
    OnlyWithout(styles, setting.name, name);
    if setting.value == None {
      assert Without(styles, setting.name) + [] == Without(styles, setting.name);
    } else {
      var s := Setting(setting.name, setting.value.value);
      assert StartsWith(s, setting.name);
      if setting.name != name {
        NamesDiffer(setting.name, name, s);
      }
      OnlyConcat(Without(styles, setting.name), [s], name);
      OnlyOne(s, name);
    }
  }

  lemma OnlyOne(s: string, name: string)
    ensures Only([s], name) == if StartsWith(s, name) then [s] else []
  {
    hide StartsWith;
  }

  predicate Named(sets: seq<Set>) {
    forall i :: 0 <= i < |sets| ==> IsName(sets[i].name) && (sets[i].value != None ==> Clean(Setting(sets[i].name, sets[i].value.value)))
  }

  lemma CleanSetting(name: string, value: string)
    requires IsName(name) && Clean(value)
    ensures Clean(Setting(name, value))
  {
    var s := Setting(name, value);
    assert s[0] == name[0] && s[|s| - 1] == value[|value| - 1];
    assert ';' !in name;
  }

  lemma ColorsClean(i: int)
    requires 0 <= i <= 7
    ensures Clean(ColorName(i)) && Clean("bold") && Clean("underline")
  {
  }

  lemma SettingsNamed(code: int)
    ensures Named(Settings(code))
  {
    hide Clean, ColorName, Setting;
    ColorsClean(0);
    ColorsClean(7);
    assert ColorName(0) == "black" && ColorName(7) == "white" by { Defaults(); }
    if 30 <= code <= 37 {
      ColorsClean(code - 30);
    } else if 40 <= code <= 47 {
      ColorsClean(code - 40);
    }
    var sets := Settings(code);
    forall i | 0 <= i < |sets| && sets[i].value != None
      ensures Clean(Setting(sets[i].name, sets[i].value.value))
    {
      CleanSetting(sets[i].name, sets[i].value.value);
    }
  }

  lemma Defaults()
    ensures ColorName(0) == "black" && ColorName(7) == "white"
  {
  }

  lemma {:induction false} PushAllSnoc(styles: seq<string>, sets: seq<Set>)
    requires sets != []
    ensures var n := |sets| - 1;
            PushAll(styles, sets) == Push(PushAll(styles, sets[..n]), sets[n].name, sets[n].value)
    decreases |sets|
  {
    hide Push;
    var n := |sets| - 1;
    if n == 0 {
      assert sets[1..] == [] && sets[..0] == [];
    } else {
      PushAllSnoc(Push(styles, sets[0].name, sets[0].value), sets[1..]);
      assert sets[1..][..n - 1] == sets[..n][1..];
    }
  }

  lemma {:induction false} OnlyPushAll(styles: seq<string>, sets: seq<Set>, name: string)
    requires Named(sets) && IsName(name)
    ensures Only(PushAll(styles, sets), name)
         == match Change(sets, name) case None => Only(styles, name) case Some(v) => Expected(name, v)
    decreases |sets|
  {
    hide Push, IsName, Clean;
    if sets != [] {
      var n := |sets| - 1;
      PushAllSnoc(styles, sets);
      OnlyPushAll(styles, sets[..n], name);
      OnlyPush(PushAll(styles, sets[..n]), sets[n], name);
    }
  }

  lemma {:induction false} RenditionSnoc(styles: seq<string>, codes: seq<int>)
    requires codes != []
    ensures var n := |codes| - 1;
            Rendition(styles, codes)
            == if codes[n] <= 0 then [] else PushAll(Rendition(styles, codes[..n]), Settings(codes[n]))
    decreases |codes|
  {
    hide PushAll, Settings;
    var n := |codes| - 1;
    if n == 0 {
      assert codes[1..] == [] && codes[..0] == [];
    } else {
      RenditionSnoc(if codes[0] <= 0 then [] else PushAll(styles, Settings(codes[0])), codes[1..]);
      assert codes[1..][..n - 1] == codes[..n][1..];
    }
  }

  /** The SGR law: after any parameters the list holds, for each property, exactly the setting the
      latest relevant parameter asks for, once, and nothing where the default is in force. */
  lemma {:induction false} RenditionExact(codes: seq<int>, name: string)
    requires IsName(name)
    ensures Only(Rendition([], codes), name) == Expected(name, Effect(codes, name))
    decreases |codes|
  {
    hide PushAll, Settings, IsName, Change;
    if codes != [] {
      var n := |codes| - 1;
      RenditionSnoc([], codes);
      if codes[n] > 0 {
        SettingsNamed(codes[n]);
        RenditionExact(codes[..n], name);
        OnlyPushAll(Rendition([], codes[..n]), Settings(codes[n]), name);
      }
    }
  }

  lemma {:induction false} WithoutClean(styles: seq<string>, name: string)
    requires AllClean(styles)
    ensures AllClean(Without(styles, name))
  {
    hide Clean;
    if styles != [] {
      WithoutClean(styles[1..], name);
    }
  }

  lemma {:induction false} PushAllClean(styles: seq<string>, sets: seq<Set>)
    requires AllClean(styles) && Named(sets)
    ensures AllClean(PushAll(styles, sets))
    decreases |sets|
  {
    hide Clean, IsName;
    if sets != [] {
      WithoutClean(styles, sets[0].name);
      PushAllClean(Push(styles, sets[0].name, sets[0].value), sets[1..]);
    }
  }

  /** Everything SGR can produce survives the join and split of style attributes. */
  lemma {:induction false} RenditionClean(styles: seq<string>, codes: seq<int>)
    requires AllClean(styles)
    ensures AllClean(Rendition(styles, codes))
    decreases |codes|
  {
    hide PushAll, Settings, Clean;
    if codes != [] {
      SettingsNamed(codes[0]);
      PushAllClean(styles, Settings(codes[0]));
      RenditionClean(if codes[0] <= 0 then [] else PushAll(styles, Settings(codes[0])), codes[1..]);
    }
  }

  // ---------------------------------------------------------------- what strings and lists mean

  /** trim takes away everything up to the space character (U+0020) at both ends, and nothing inside. */
  lemma TrimMeans(a: string, s: string, b: string)
    requires forall i :: 0 <= i < |a| ==> a[i] as int <= 32
    requires forall i :: 0 <= i < |b| ==> b[i] as int <= 32
    requires s == [] || (s[0] as int > 32 && s[|s| - 1] as int > 32)
    ensures s != [] ==> Trim(a + s + b) == s
    ensures s == [] ==> Trim(a + b) == []
  {
    if s == [] {
      TrimAll(a + b);
    } else {
      TrimFront(a, s + b);
      assert a + s + b == a + (s + b);
      TrimBack(s, b);
    }
  }

  lemma {:induction false} TrimFront(a: string, s: string)
    requires forall i :: 0 <= i < |a| ==> a[i] as int <= 32
    requires s != [] && s[0] as int > 32
    ensures TrimLeft(a + s) == s
    decreases |a|
  {
    if a == [] {
      assert a + s == s;
    } else {
      assert (a + s)[1..] == a[1..] + s;
      TrimFront(a[1..], s);
    }
  }

  lemma {:induction false} TrimBack(s: string, b: string)
    requires forall i :: 0 <= i < |b| ==> b[i] as int <= 32
    requires s != [] && s[|s| - 1] as int > 32
    ensures TrimRight(s + b) == s
    decreases |b|
  {
    if b == [] {
      assert s + b == s;
    } else {
      assert (s + b)[..|s + b| - 1] == s + b[..|b| - 1];
      TrimBack(s, b[..|b| - 1]);
    }
  }

  lemma {:induction false} TrimAll(a: string)
    requires forall i :: 0 <= i < |a| ==> a[i] as int <= 32
    ensures Trim(a) == [] && TrimLeft(a) == []
    decreases |a|
  {
    if a != [] {
      TrimAll(a[1..]);
    }
  }

  /** How many of the first `i` styles do not set the property. */
  function KeptBefore(styles: seq<string>, name: string, i: nat): nat
    requires i <= |styles|
  {
    if i == 0 then 0 else KeptBefore(styles, name, i - 1) + if StartsWith(styles[i - 1], name) then 0 else 1
  }

  lemma {:induction false} KeptBeforeCons(styles: seq<string>, name: string, i: nat)
    requires 0 < i <= |styles|
    ensures KeptBefore(styles, name, i)
         == (if StartsWith(styles[0], name) then 0 else 1) + KeptBefore(styles[1..], name, i - 1)
  {
    hide StartsWith;
    if i > 1 {
      KeptBeforeCons(styles, name, i - 1);
    }
  }

  lemma {:induction false} WithoutMeans(styles: seq<string>, name: string, i: nat)
    requires i <= |styles|
    ensures |Without(styles, name)| == KeptBefore(styles, name, |styles|)
    ensures i < |styles| && !StartsWith(styles[i], name) ==>
              KeptBefore(styles, name, i) < |Without(styles, name)|
              && Without(styles, name)[KeptBefore(styles, name, i)] == styles[i]
    decreases |styles|
  {
    hide StartsWith;
    if styles != [] {
      KeptBeforeCons(styles, name, |styles|);
      WithoutMeans(styles[1..], name, if i == 0 then 0 else i - 1);
      if i > 0 {
        KeptBeforeCons(styles, name, i);
      }
    }
  }

  /** A new setting goes behind all others, which stay in order; those of its own property are gone. */
  lemma PushMeans(styles: seq<string>, name: string, value: string, i: nat)
    requires i <= |styles|
    ensures var r, n := Push(styles, name, Some(value)), KeptBefore(styles, name, |styles|);
            && |r| == n + 1 && r[n] == name + " " + value
            && (i < |styles| && !StartsWith(styles[i], name) ==>
                  KeptBefore(styles, name, i) < n && r[KeptBefore(styles, name, i)] == styles[i])
  {
    hide StartsWith, Without;
    WithoutMeans(styles, name, i);
  }
}
