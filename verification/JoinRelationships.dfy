/** Reading relationship descriptions such as `Role-m2m-DataScope:scopes`. */
module JoinRelationships {
  import opened Wrappers
  import opened JoinModel

  // ---------------------------------------------------------------- text

  /** The characters that `strip` takes for white space, by code point. */
  predicate Blank(c: char) {
    var p := c as int;
    || 0x09 <= p <= 0x0D || 0x1C <= p <= 0x20 || p == 0x85 || p == 0xA0 || p == 0x1680 || 0x2000 <= p <= 0x200A
    || p == 0x2028 || p == 0x2029 || p == 0x202F || p == 0x205F || p == 0x3000
  }

  function StripLeft(s: string): string {
    if s != [] && Blank(s[0]) then StripLeft(s[1..]) else s
  }

  function StripRight(s: string): string {
    if s != [] && Blank(s[|s| - 1]) then StripRight(s[..|s| - 1]) else s
  }

  function Strip(s: string): string { StripRight(StripLeft(s)) }

  /** Lower case of the ASCII letters. */
  function LowerChar(c: char): char {
    if 'A' <= c <= 'Z' then (c as int + 32) as char else c
  }

  function Lower(s: string): (r: string)
    ensures |r| == |s|
    ensures forall i :: 0 <= i < |s| ==> !('A' <= r[i] <= 'Z')
    ensures forall i :: 0 <= i < |s| && !('A' <= s[i] <= 'Z') ==> r[i] == s[i]
    ensures forall i :: 0 <= i < |s| && 'A' <= s[i] <= 'Z' ==> r[i] as int - 'a' as int == s[i] as int - 'A' as int
  {
    seq(|s|, i requires 0 <= i < |s| => LowerChar(s[i]))
  }

  /** The pieces between separators; never empty. */
  function Split(s: string, sep: char): (pieces: seq<string>)
    ensures pieces != []
  {
    if s == [] then [[]]
    else
      var rest := Split(s[1..], sep);
      if s[0] == sep then [[]] + rest else [[s[0]] + rest[0]] + rest[1..]
  }

  /** What is before the first separator, and what is after it, if there is one. */
  function SplitOnce(s: string, sep: char): (string, Option<string>) {
    if s == [] then ([], None)
    else if s[0] == sep then ([], Some(s[1..]))
    else
      var (before, after) := SplitOnce(s[1..], sep);
      ([s[0]] + before, after)
  }

  // ---------------------------------------------------------------- one relationship

  function KindOf(text: string): Option<Kind> {
    if text == "o2m" then Some(O2M)
    else if text == "m2o" then Some(M2O)
    else if text == "o2o" then Some(O2O)
    else if text == "m2m" then Some(M2M)
    else None
  }

  function KindText(kind: Kind): string {
    match kind
    case O2M => "o2m"
    case M2O => "m2o"
    case O2O => "o2o"
    case M2M => "m2m"
  }

  /** A description that is not `source-kind-target`, or names no known kind, is skipped. */
  function ParseOne(text: string): Option<Rel> {
    var (relPart, customPart) := SplitOnce(text, ':');
    var info := Split(Strip(relPart), '-');
    if |info| != 3 then None
    else
      var kind := KindOf(Lower(info[1]));
      if kind.None? then None
      else
        var custom := if customPart.None? || Strip(customPart.value) == [] then None else Some(Strip(customPart.value));
        Some(Rel(Lower(info[0]), Lower(info[2]), kind.value, custom))
  }

  function Render(r: Rel): string {
    r.source + "-" + KindText(r.kind) + "-" + r.target + (if r.custom.Some? then ":" + r.custom.value else "")
  }

  predicate PlainChar(c: char) { !Blank(c) && c != '-' && c != ':' }

  predicate PlainName(s: string) {
    s != [] && forall i :: 0 <= i < |s| ==> PlainChar(s[i])
  }

  /** Names without separators and blanks, in any case. */
  predicate Plain(r: Rel) {
    && PlainName(r.source) && PlainName(r.target)
    && (r.custom.Some? ==>
          r.custom.value != [] && !Blank(r.custom.value[0]) && !Blank(r.custom.value[|r.custom.value| - 1]))
  }

  /** The relationship with its classes as the serializer compares them. */
  function Lowered(r: Rel): Rel {
    r.(source := Lower(r.source), target := Lower(r.target))
  }

  lemma {:induction false} SplitSingle(s: string, sep: char)
    requires sep !in s
    ensures Split(s, sep) == [s]
  {
    if s != [] {
      SplitSingle(s[1..], sep);
      assert [s[0]] + s[1..] == s;
    }
  }

  lemma {:induction false} SplitFirst(a: string, rest: string, sep: char)
    requires sep !in a
    ensures Split(a + [sep] + rest, sep) == [a] + Split(rest, sep)
  {
    var s := a + [sep] + rest;
    if a == [] {
      assert s[1..] == rest;
    } else {
      assert s[1..] == a[1..] + [sep] + rest;
      SplitFirst(a[1..], rest, sep);
      assert ([a[1..]] + Split(rest, sep))[1..] == Split(rest, sep);
      assert [a[0]] + a[1..] == a;
    }
  }

  lemma {:induction false} SplitOnceAt(a: string, rest: string, sep: char)
    requires sep !in a
    ensures SplitOnce(a + [sep] + rest, sep) == (a, Some(rest))
  {
    var s := a + [sep] + rest;
    if a == [] {
      assert s[1..] == rest;
    } else {
      assert s[1..] == a[1..] + [sep] + rest;
      SplitOnceAt(a[1..], rest, sep);
      assert [a[0]] + a[1..] == a;
    }
  }

  lemma {:induction false} SplitOnceNowhere(a: string, sep: char)
    requires sep !in a
    ensures SplitOnce(a, sep) == (a, None)
  {
    if a != [] {
      SplitOnceNowhere(a[1..], sep);
      assert [a[0]] + a[1..] == a;
    }
  }

  lemma KindRoundTrip(kind: Kind)
    ensures PlainName(KindText(kind)) && KindOf(Lower(KindText(kind))) == Some(kind)
  {
    var t := KindText(kind);
    assert Lower(t) == t;
    forall i | 0 <= i < |t| ensures PlainChar(t[i]) {
      assert |t| == 3;
      assert PlainChar(t[0]) && PlainChar(t[1]) && PlainChar(t[2]);
    }
  }

  /** The middle part of a rendered relationship, before any custom name. */
  lemma RelPart(a: string, k: string, b: string)
    requires PlainName(a) && PlainName(k) && PlainName(b)
    ensures var text := a + "-" + k + "-" + b;
      ':' !in text && Strip(text) == text && Split(text, '-') == [a, k, b]
  {
    var text := a + "-" + k + "-" + b;
    var rest := k + ['-'] + b;
    assert text == a + ['-'] + rest;
    assert PlainChar(a[0]) && PlainChar(b[|b| - 1]);
    assert text[0] == a[0] && text[|text| - 1] == b[|b| - 1];
    NoSeparator(a, '-');
    NoSeparator(k, '-');
    NoSeparator(b, '-');
    NoSeparator(a, ':');
    NoSeparator(k, ':');
    NoSeparator(b, ':');
    SplitFirst(a, rest, '-');
    SplitFirst(k, b, '-');
    SplitSingle(b, '-');
    assert [a] + ([k] + [b]) == [a, k, b];
  }

  lemma NoSeparator(s: string, sep: char)
    requires PlainName(s) && !PlainChar(sep)
    ensures sep !in s
  {
  }

  predicate AllBlank(s: string) {
    forall i :: 0 <= i < |s| ==> Blank(s[i])
  }

  lemma {:induction false} StripLeftPad(pad: string, s: string)
    requires AllBlank(pad) && s != [] && !Blank(s[0])
    ensures StripLeft(pad + s) == s
  {
    if pad == [] {
      assert pad + s == s;
    } else {
      assert (pad + s)[1..] == pad[1..] + s;
      StripLeftPad(pad[1..], s);
    }
  }

  lemma {:induction false} StripRightPad(s: string, pad: string)
    requires AllBlank(pad) && s != [] && !Blank(s[|s| - 1])
    ensures StripRight(s + pad) == s
  {
    if pad == [] {
      assert s + pad == s;
    } else {
      assert (s + pad)[..|s + pad| - 1] == s + pad[..|pad| - 1];
      StripRightPad(s, pad[..|pad| - 1]);
    }
  }

  /** Blanks around a text that neither begins nor ends with one are dropped, and nothing else. */
  lemma StripPads(left: string, s: string, right: string)
    requires AllBlank(left) && AllBlank(right) && s != [] && !Blank(s[0]) && !Blank(s[|s| - 1])
    ensures Strip(left + s + right) == s
  {
    assert left + s + right == left + (s + right);
    StripLeftPad(left, s + right);
    StripRightPad(s, right);
  }

  /** A relationship as someone may write it: its kind in any case, blanks around either part. */
  datatype Spelling = Spelling(kind: string, before: string, after: string, left: string, right: string)

  predicate Spells(r: Rel, w: Spelling) {
    && PlainName(w.kind) && Lower(w.kind) == KindText(r.kind)
    && AllBlank(w.before) && AllBlank(w.after) && AllBlank(w.left) && AllBlank(w.right)
  }

  function Written(r: Rel, w: Spelling): string {
    w.before + (r.source + "-" + w.kind + "-" + r.target) + w.after +
    (if r.custom.Some? then ":" + (w.left + r.custom.value + w.right) else "")
  }

  lemma NoColon(left: string, text: string, right: string)
    requires AllBlank(left) && AllBlank(right) && ':' !in text
    ensures ':' !in left + text + right
  {
  }

  function RelText(r: Rel, w: Spelling): string {
    w.before + (r.source + "-" + w.kind + "-" + r.target) + w.after
  }

  lemma RelTextReads(r: Rel, w: Spelling)
    requires Plain(r) && Spells(r, w)
    ensures ':' !in RelText(r, w) && Split(Strip(RelText(r, w)), '-') == [r.source, w.kind, r.target]
  {
    hide Split, Lower, KindText, Strip, AllBlank;
    RelPart(r.source, w.kind, r.target);
    var text := r.source + "-" + w.kind + "-" + r.target;
    assert PlainChar(r.source[0]) && PlainChar(r.target[|r.target| - 1]);
    assert text[0] == r.source[0] && text[|text| - 1] == r.target[|r.target| - 1];
    StripPads(w.before, text, w.after);
    NoColon(w.before, text, w.after);
  }

  lemma WrittenSplits(r: Rel, w: Spelling)
    requires ':' !in RelText(r, w)
    ensures SplitOnce(Written(r, w), ':') ==
      (RelText(r, w), if r.custom.Some? then Some(w.left + r.custom.value + w.right) else None)
  {
    hide SplitOnce;
    var part := RelText(r, w);
    if r.custom.Some? {
      var custom := w.left + r.custom.value + w.right;
      assert Written(r, w) == part + [':'] + custom;
      SplitOnceAt(part, custom, ':');
    } else {
      assert Written(r, w) == part;
      SplitOnceNowhere(part, ':');
    }
  }

  /** However it is spelled, reading a relationship gives it back in lower case, with its custom name as it is. */
  lemma ParseUndoesWriting(r: Rel, w: Spelling)
    requires Plain(r) && Spells(r, w)
    ensures ParseOne(Written(r, w)) == Some(Lowered(r))
  {
    hide Split, Lower, KindText, KindOf, PlainName, SplitOnce, Strip, AllBlank, Written, RelText, Blank;
    RelTextReads(r, w);
    WrittenSplits(r, w);
    assert KindOf(Lower(w.kind)) == Some(r.kind) by {
      KindRoundTrip(r.kind);
      LowerTwice(w.kind);
    }
    if r.custom.Some? { StripPads(w.left, r.custom.value, w.right); }
  }

  lemma LowerTwice(s: string)
    ensures Lower(Lower(s)) == Lower(s)
  {
  }

  /** In particular the plain rendering reads back. */
  lemma ParseUndoesRender(r: Rel)
    requires Plain(r)
    ensures ParseOne(Render(r)) == Some(Lowered(r))
  {
    KindRoundTrip(r.kind);
    var w := Spelling(KindText(r.kind), "", "", "", "");
    assert Lower(w.kind) == w.kind;
    ParseUndoesWriting(r, w);
    var text := r.source + "-" + w.kind + "-" + r.target;
    hide ParseOne, Plain, KindText;
    assert "" + text + "" == text;
    if r.custom.Some? { assert "" + r.custom.value + "" == r.custom.value; }
  }

  lemma {:induction false} SplitCount(s: string, sep: char)
    ensures |Split(s, sep)| == 1 + multiset(s)[sep]
  {
    if s != [] {
      SplitCount(s[1..], sep);
      assert s == [s[0]] + s[1..];
    }
  }

  lemma {:induction false} StripLeftKeeps(s: string, c: char)
    requires !Blank(c)
    ensures multiset(StripLeft(s))[c] == multiset(s)[c]
  {
    if s != [] && Blank(s[0]) {
      StripLeftKeeps(s[1..], c);
      assert s == [s[0]] + s[1..];
    }
  }

  lemma {:induction false} StripRightKeeps(s: string, c: char)
    requires !Blank(c)
    ensures multiset(StripRight(s))[c] == multiset(s)[c]
  {
    if s != [] && Blank(s[|s| - 1]) {
      StripRightKeeps(s[..|s| - 1], c);
      assert s == s[..|s| - 1] + [s[|s| - 1]];
    }
  }

  /** A description without exactly two dashes before its first colon is skipped. */
  lemma SkippedUnlessTwoDashes(text: string)
    requires multiset(SplitOnce(text, ':').0)['-'] != 2
    ensures ParseOne(text) == None
  {
    var part := SplitOnce(text, ':').0;
    StripLeftKeeps(part, '-');
    StripRightKeeps(StripLeft(part), '-');
    SplitCount(Strip(part), '-');
    hide Split, SplitOnce, StripLeft, StripRight;
  }

  // ---------------------------------------------------------------- the list

  /** What the serializer keeps: kinds by source and target, parents by target, custom names by both. */
  datatype Relations = Relations(
    graph: map<(string, string), Kind>,
    reverse: map<string, string>,
    customs: map<(string, string), string>)

  function Add(p: Relations, r: Rel): Relations {
    Relations(p.graph[(r.source, r.target) := r.kind],
              p.reverse[r.target := r.source],
              if r.custom.Some? then p.customs[(r.source, r.target) := r.custom.value] else p.customs)
  }

  function AddAll(rels: seq<Rel>): Relations {
    if rels == [] then Relations(map[], map[], map[]) else Add(AddAll(rels[..|rels| - 1]), rels[|rels| - 1])
  }

  /** The descriptions that can be read, in order. */
  function Readable(texts: seq<string>): seq<Rel> {
    if texts == [] then []
    else
      var rest := Readable(texts[..|texts| - 1]);
      var r := ParseOne(texts[|texts| - 1]);
      if r.Some? then rest + [r.value] else rest
  }

  ghost predicate DistinctTargets(rels: seq<Rel>) {
    forall i, j :: 0 <= i < j < |rels| ==> rels[i].target != rels[j].target
  }

  ghost predicate GraphDescribes(p: Relations, rels: seq<Rel>) {
    && (forall r :: r in rels ==> (r.source, r.target) in p.graph && p.graph[(r.source, r.target)] == r.kind)
    && (forall e :: e in p.graph ==> exists r :: r in rels && (r.source, r.target) == e)
  }

  ghost predicate ParentsDescribe(p: Relations, rels: seq<Rel>) {
    forall t :: (if t in p.reverse then Some(p.reverse[t]) else None) == ParentOf(rels, t)
  }

  ghost predicate CustomsDescribe(p: Relations, rels: seq<Rel>) {
    && (forall r :: r in rels ==>
          r.custom == if (r.source, r.target) in p.customs then Some(p.customs[(r.source, r.target)]) else None)
    && (forall e :: e in p.customs ==> exists r :: r in rels && (r.source, r.target) == e)
  }

  /** The dictionaries say exactly what the relationships say. */
  ghost predicate Describes(p: Relations, rels: seq<Rel>) {
    GraphDescribes(p, rels) && ParentsDescribe(p, rels) && CustomsDescribe(p, rels)
  }

  /** With one parent per target, the dictionaries describe exactly the readable relationships. */
  lemma {:induction false} AddAllDescribes(rels: seq<Rel>)
    requires DistinctTargets(rels)
    ensures Describes(AddAll(rels), rels)
  {
    hide GraphDescribes, ParentsDescribe, CustomsDescribe, Add;
    if rels == [] {
      NothingDescribes();
    } else {
      var init, last := rels[..|rels| - 1], rels[|rels| - 1];
      assert DistinctTargets(init) && forall r :: r in init ==> r.target != last.target by {
        assert forall i :: 0 <= i < |init| ==> init[i] == rels[i];
      }
      AddAllDescribes(init);
      hide DistinctTargets;
      assert rels == init + [last];
      OneMoreKind(AddAll(init), init, last);
      OneMoreParent(AddAll(init), init, last);
      OneMoreCustom(AddAll(init), init, last);
    }
  }

  lemma NothingDescribes()
    ensures var p := Relations(map[], map[], map[]);
      GraphDescribes(p, []) && ParentsDescribe(p, []) && CustomsDescribe(p, [])
  {
  }

  lemma OneMoreKind(p: Relations, init: seq<Rel>, last: Rel)
    requires GraphDescribes(p, init) && forall r :: r in init ==> r.target != last.target
    ensures GraphDescribes(Add(p, last), init + [last])
  {
    var rels, p' := init + [last], Add(p, last);
    forall e | e in p'.graph ensures exists r :: r in rels && (r.source, r.target) == e {
      if e in p.graph {
        var r :| r in init && (r.source, r.target) == e;
        assert r in rels;
      } else {
        assert last in rels;
      }
    }
  }

  lemma OneMoreParent(p: Relations, init: seq<Rel>, last: Rel)
    requires ParentsDescribe(p, init)
    ensures ParentsDescribe(Add(p, last), init + [last])
  {
    var rels := init + [last];
    assert rels[..|rels| - 1] == init;
  }

  lemma OneMoreCustom(p: Relations, init: seq<Rel>, last: Rel)
    requires CustomsDescribe(p, init) && forall r :: r in init ==> r.target != last.target
    ensures CustomsDescribe(Add(p, last), init + [last])
  {
    var rels, p' := init + [last], Add(p, last);
    assert (last.source, last.target) !in p.customs;
    forall e | e in p'.customs ensures exists r :: r in rels && (r.source, r.target) == e {
      if e in p.customs {
        var r :| r in init && (r.source, r.target) == e;
        assert r in rels;
      } else {
        assert last in rels;
      }
    }
  }

  /** A list of rendered relationships reads back, each in lower case. */
  lemma {:induction false} ReadableRendered(rels: seq<Rel>)
    requires forall r :: r in rels ==> Plain(r)
    ensures Readable(seq(|rels|, i requires 0 <= i < |rels| => Render(rels[i]))) ==
            seq(|rels|, i requires 0 <= i < |rels| => Lowered(rels[i]))
  {
    hide ParseOne, Render, Plain, Lowered;
    var texts := seq(|rels|, i requires 0 <= i < |rels| => Render(rels[i]));
    if rels != [] {
      var init := rels[..|rels| - 1];
      ReadableRendered(init);
      ParseUndoesRender(rels[|rels| - 1]);
      assert texts[..|texts| - 1] == seq(|init|, i requires 0 <= i < |init| => Render(init[i]));
    }
  }

  /** The loop over the descriptions, skipping those that cannot be read. */
  method ParseRelationships(texts: seq<string>) returns (p: Relations)
    ensures p == AddAll(Readable(texts))
    ensures DistinctTargets(Readable(texts)) ==> Describes(p, Readable(texts))
  {
    hide ParseOne, DistinctTargets, Describes;
    p := Relations(map[], map[], map[]);
    for i := 0 to |texts|
      invariant p == AddAll(Readable(texts[..i]))
    {
      assert texts[..i + 1][..i] == texts[..i];
      var r := ParseOne(texts[i]);
      if r.Some? {
        var found := Readable(texts[..i]);
        assert (found + [r.value])[..|found|] == found;
        var rel := r.value;
        p := Relations(p.graph[(rel.source, rel.target) := rel.kind],
                       p.reverse[rel.target := rel.source],
                       if rel.custom.Some? then p.customs[(rel.source, rel.target) := rel.custom.value] else p.customs);
      }
    }
    assert texts[..|texts|] == texts;
    if DistinctTargets(Readable(texts)) { AddAllDescribes(Readable(texts)); }
  }
}
