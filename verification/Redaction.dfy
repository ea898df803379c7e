/** JSON redaction by path: a subset of JSONPath with fields and array wildcards. */
module Redaction {
  import opened Prelude
  import opened Text

  datatype Json =
    | Null
    | Bool(b: bool)
    | Number(text: string)
    | Str(s: string)
    | Array(elems: seq<Json>)
    | Object(fields: map<string, Json>)

  datatype PathSeg = Field(name: string) | ArrayWildcard

  // ---- Parsing a rule ----

  /** Length of the field name at the start of the text: up to the next '.' or '['. */
  function NameLength(s: string): (n: nat)
    ensures n <= |s|
    ensures forall i :: 0 <= i < n ==> s[i] != '.' && s[i] != '['
    ensures n < |s| ==> s[n] == '.' || s[n] == '['
  {
    if s == "" || s[0] == '.' || s[0] == '[' then 0 else 1 + NameLength(s[1..])
  }

  predicate StartsWild(s: string): (r: bool)
    ensures r ==> |s| >= 3
  {
    |s| >= 3 && s[..3] == "[*]"
  }

  function Segments(s: string): seq<PathSeg>
    decreases |s|
  {
    if s == "" then []
    else if s[0] == '.' then
      var n := NameLength(s[1..]);
      if n == 0 then [] else [Field(s[1..][..n])] + Segments(s[1..][n..])
    else if StartsWild(s) then [ArrayWildcard] + Segments(s[3..])
    else []
  }

  /** Loop state: `segs` have been taken and `rest` is still to be parsed. */
  ghost predicate ParsedSoFar(s: string, segs: seq<PathSeg>, rest: string) {
    Segments(s) == segs + Segments(rest)
  }

  lemma TakeField(s: string, segs: seq<PathSeg>, rest: string, n: nat)
    requires ParsedSoFar(s, segs, rest) && rest != "" && rest[0] == '.' && n == NameLength(rest[1..])
    ensures n == 0 ==> Segments(s) == segs
    ensures n > 0 ==> ParsedSoFar(s, segs + [Field(rest[1..][..n])], rest[1..][n..])
  {
  }

  lemma TakeWildcard(s: string, segs: seq<PathSeg>, rest: string)
    requires ParsedSoFar(s, segs, rest) && rest != "" && rest[0] != '.'
    ensures !StartsWild(rest) ==> Segments(s) == segs
    ensures StartsWild(rest) ==> ParsedSoFar(s, segs + [ArrayWildcard], rest[3..])
  {
  }

  /** Parses the part of a rule after `$`; anything unsupported ends the path there. */
  method ParseSegments(s: string) returns (segs: seq<PathSeg>)
    ensures segs == Segments(s)
  {
    segs := [];
    var rest := s;
    while rest != ""
      invariant ParsedSoFar(s, segs, rest)
      decreases |rest|
    {
      hide ParsedSoFar, Segments, NameLength, StartsWild;
      if rest[0] == '.' {
        var end := NameLength(rest[1..]);
        TakeField(s, segs, rest, end);
        if end == 0 { return; }
        segs := segs + [Field(rest[1..][..end])];
        rest := rest[1..][end..];
      } else {
        TakeWildcard(s, segs, rest);
        if !StartsWild(rest) { return; }
        segs := segs + [ArrayWildcard];
        rest := rest[3..];
      }
    }
  }

  /** The path of a rule; a rule that does not start with `$` has none and is ignored. */
  function RulePath(u: Unicode, rule: string): seq<PathSeg> {
    var path := TrimSpace(u, rule);
    if path == "" || path[0] != '$' then [] else Segments(path[1..])
  }

  function Render(segs: seq<PathSeg>): string {
    if segs == [] then "" else
      (match segs[0] case Field(name) => "." + name case ArrayWildcard => "[*]") + Render(segs[1..])
  }

  predicate Renderable(segs: seq<PathSeg>) {
    forall i :: 0 <= i < |segs| && segs[i].Field? ==> segs[i].name != "" && NameLength(segs[i].name) == |segs[i].name|
  }

  lemma {:induction false} NameThenRest(name: string, rest: string)
    requires NameLength(name) == |name| && (rest == "" || rest[0] == '.' || rest[0] == '[')
    ensures NameLength(name + rest) == |name|
  {
    if name == "" {
      assert name + rest == rest;
    } else {
      assert (name + rest)[1..] == name[1..] + rest;
      NameThenRest(name[1..], rest);
    }
  }

  lemma FieldFirst(name: string, tail: string)
    requires name != "" && NameLength(name) == |name| && (tail == "" || tail[0] == '.' || tail[0] == '[')
    ensures Segments("." + name + tail) == [Field(name)] + Segments(tail)
  {
    NameThenRest(name, tail);
    var s := "." + name + tail;
    assert s[1..] == name + tail;
    assert (name + tail)[..|name|] == name && (name + tail)[|name|..] == tail;
  }

  lemma WildcardFirst(tail: string)
    ensures Segments("[*]" + tail) == [ArrayWildcard] + Segments(tail)
  {
    var s := "[*]" + tail;
    assert s[..3] == "[*]" && s[3..] == tail;
  }

  lemma SegmentFirst(seg: PathSeg, tail: string)
    requires seg.Field? ==> seg.name != "" && NameLength(seg.name) == |seg.name|
    requires seg.Field? ==> tail == "" || tail[0] == '.' || tail[0] == '['
    ensures Segments((match seg case Field(name) => "." + name case ArrayWildcard => "[*]") + tail)
         == [seg] + Segments(tail)
  {
    match seg
    case Field(name) => FieldFirst(name, tail);
    case ArrayWildcard => WildcardFirst(tail);
  }

  lemma {:induction false} SegmentsRender(segs: seq<PathSeg>)
    requires Renderable(segs)
    ensures Segments(Render(segs)) == segs
  {
    if segs != [] {
      SegmentsRender(segs[1..]);
      SegmentFirst(segs[0], Render(segs[1..]));
      assert segs == [segs[0]] + segs[1..];
    }
  }

  lemma {:induction false} RenderSegments(s: string)
    ensures |Render(Segments(s))| <= |s|
    decreases |s|
  {
    if s != "" {
      if s[0] == '.' {
        var n := NameLength(s[1..]);
        if n > 0 {
          RenderSegments(s[1..][n..]);
          assert Segments(s)[1..] == Segments(s[1..][n..]);
        }
      } else if StartsWild(s) {
        RenderSegments(s[3..]);
        assert Segments(s)[1..] == Segments(s[3..]);
      }
    }
  }

  /** The rule does not end in a field name with trailing blanks, which would be trimmed away. */
  predicate EndsClean(u: Unicode, segs: seq<PathSeg>) {
    segs == [] || (var last := segs[|segs| - 1];
                   last.ArrayWildcard? || (last.name != "" && !u.isSpace(last.name[|last.name| - 1])))
  }

  lemma {:induction false} RenderLast(u: Unicode, segs: seq<PathSeg>)
    requires Renderable(segs) && segs != []
    ensures Render(segs) != "" && (u.isSpace(Render(segs)[|Render(segs)| - 1]) <==> !EndsClean(u, segs))
  {
    if |segs| > 1 {
      RenderLast(u, segs[1..]);
    } else {
      assert segs[1..] == [];
    }
  }

  /**
   Every path of non-empty field names and wildcards can be written as a rule, and the rule parses
   to it exactly when the last name does not end in a blank.
   */
  lemma ParseRender(u: Unicode, segs: seq<PathSeg>)
    requires Renderable(segs)
    ensures RulePath(u, "$" + Render(segs)) == segs <==> EndsClean(u, segs)
  {
    var body := Render(segs);
    var rule := "$" + body;
    if segs != [] { RenderLast(u, segs); }
    assert rule[|rule| - 1] == if body == "" then '$' else body[|body| - 1];
    hide Segments, Render;
    if EndsClean(u, segs) {
      TrimFixpoint(u, rule);
      SegmentsRender(segs);
      assert rule[1..] == body;
    } else {
      TrimDrops(u, rule);
      var path := TrimSpace(u, rule);
      assert path[0] == '$';
      RenderSegments(path[1..]);
    }
  }

  /** What ends a path: a dot without a name, a bracket other than `[*]`, or any other text not after a name. */
  predicate Unsupported(segs: seq<PathSeg>, rest: string) {
    rest != ""
    && (if rest[0] == '.' then |rest| == 1 || rest[1] == '.' || rest[1] == '['
        else if rest[0] == '[' then !(|rest| >= 3 && rest[1] == '*' && rest[2] == ']')
        else segs == [] || segs[|segs| - 1].ArrayWildcard?)
  }

  lemma RenderHead(segs: seq<PathSeg>)
    ensures Render(segs) == "" || Render(segs)[0] == '.' || Render(segs)[0] == '['
    ensures Render(segs) == "" <==> segs == []
  {
  }

  lemma UnsupportedTail(segs: seq<PathSeg>, rest: string)
    requires segs != [] && Unsupported(segs, rest)
    ensures Unsupported(segs[1..], rest)
    ensures var text := Render(segs[1..]) + rest;
            text != "" && (segs[0].Field? ==> text[0] == '.' || text[0] == '[')
  {
    RenderHead(segs[1..]);
    hide Render;
  }

  /**
   A path ends at the first piece that is not supported, and what was read before it stands: the rule is
   ignored exactly when nothing was.
   */
  lemma {:induction false} PathEndsAtUnsupported(segs: seq<PathSeg>, rest: string)
    requires Renderable(segs) && Unsupported(segs, rest)
    ensures Segments(Render(segs) + rest) == segs
    ensures Segments(Render(segs) + rest) == [] <==> segs == []
  {
    if segs == [] {
      assert Render(segs) + rest == rest;
    } else {
      var first, others := segs[0], Render(segs[1..]);
      var text := match first case Field(name) => "." + name case ArrayWildcard => "[*]";
      assert Render(segs) == text + others;
      UnsupportedTail(segs, rest);
      assert Renderable(segs[1..]);
      hide Segments, Render, NameLength, Unsupported;
      PathEndsAtUnsupported(segs[1..], rest);
      Associate(text, others, rest);
      SegmentFirst(first, others + rest);
      assert segs == [first] + segs[1..];
    }
  }

  // ---- Applying a rule ----

  /** The value after redaction: a final field is removed, elements under a final wildcard become null. */
  function Redacted(node: Json, segs: seq<PathSeg>): Json
    decreases |segs|
  {
    if segs == [] then node else
      match (segs[0], node)
      case (Field(name), Object(fields)) =>
        if |segs| == 1 then Object(fields - {name})
        else if name in fields then Object(fields[name := Redacted(fields[name], segs[1..])])
        else node
      case (ArrayWildcard, Array(elems)) =>
        if |segs| == 1 then Array(seq(|elems|, _ => Null))
        else Array(seq(|elems|, i requires 0 <= i < |elems| => Redacted(elems[i], segs[1..])))
      case _ => node
  }

  /** The editing pass: it rewrites the node it is given, descending into fields and elements. */
  method ApplyRedactSegs(node0: Json, segs: seq<PathSeg>) returns (node: Json)
    ensures node == Redacted(node0, segs)
    decreases |segs|
  {
    node := node0;
    if segs == [] { return; }
    match segs[0] {
      case Field(name) =>
        if node.Object? {
          if |segs| == 1 {
            node := Object(node.fields - {name});
          } else if name in node.fields {
            var child := ApplyRedactSegs(node.fields[name], segs[1..]);
            node := Object(node.fields[name := child]);
          }
        }
      case ArrayWildcard =>
        if node.Array? {
          var elems := node.elems;
          for i := 0 to |elems|
            invariant |elems| == |node0.elems|
            invariant forall k :: 0 <= k < i ==>
                      elems[k] == if |segs| == 1 then Null else Redacted(node0.elems[k], segs[1..])
            invariant forall k :: i <= k < |elems| ==> elems[k] == node0.elems[k]
          {
            var elem := Null;
            if |segs| > 1 { elem := ApplyRedactSegs(elems[i], segs[1..]); }
            elems := elems[i := elem];
          }
          node := Array(elems);
          assert elems == Redacted(node0, segs).elems;
        }
    }
  }

  // ---- Idempotence and commutation ----

  lemma {:induction false} RedactTwice(node: Json, segs: seq<PathSeg>)
    ensures Redacted(Redacted(node, segs), segs) == Redacted(node, segs)
    decreases |segs|
  {
    if segs != [] {
      var once := Redacted(node, segs);
      match (segs[0], node) {
        case (Field(name), Object(fields)) =>
          if |segs| > 1 && name in fields { RedactTwice(fields[name], segs[1..]); }
          assert |segs| == 1 ==> fields - {name} - {name} == fields - {name};
        case (ArrayWildcard, Array(elems)) =>
          if |segs| > 1 {
            forall i | 0 <= i < |elems| ensures Redacted(once.elems[i], segs[1..]) == once.elems[i] {
              RedactTwice(elems[i], segs[1..]);
            }
          }
          assert Redacted(once, segs).elems == once.elems;
        case _ =>
      }
    }
  }

  lemma {:induction false} RedactsCommute(node: Json, a: seq<PathSeg>, b: seq<PathSeg>)
    ensures Redacted(Redacted(node, a), b) == Redacted(Redacted(node, b), a)
    decreases |a|
  {
    if a != [] && b != [] && a[0] == b[0] {
      match (a[0], node) {
        case (Field(name), Object(fields)) =>
          FieldsCommute(name, fields, a, b);
        case (ArrayWildcard, Array(elems)) =>
          ElementsCommute(elems, a, b);
        case _ =>
      }
    } else if a != [] && b != [] && a[0].Field? && b[0].Field? && node.Object? {
      assert node.fields - {a[0].name} - {b[0].name} == node.fields - {b[0].name} - {a[0].name};
      DistinctFields(node.fields, a, b);
    }
  }

  lemma DistinctFields(fields: map<string, Json>, a: seq<PathSeg>, b: seq<PathSeg>)
    requires a != [] && b != [] && a[0].Field? && b[0].Field? && a[0] != b[0]
    ensures Redacted(Redacted(Object(fields), a), b) == Redacted(Redacted(Object(fields), b), a)
  {
    var x, y := Redacted(Redacted(Object(fields), a), b).fields, Redacted(Redacted(Object(fields), b), a).fields;
    assert x.Keys == y.Keys;
    assert x == y;
  }

  lemma FieldsCommute(name: string, fields: map<string, Json>, a: seq<PathSeg>, b: seq<PathSeg>)
    requires a != [] && b != [] && a[0] == b[0] == Field(name)
    ensures Redacted(Redacted(Object(fields), a), b) == Redacted(Redacted(Object(fields), b), a)
    decreases |a|, 0
  {
    if name in fields && |a| > 1 && |b| > 1 { RedactsCommute(fields[name], a[1..], b[1..]); }
    var x, y := Redacted(Redacted(Object(fields), a), b).fields, Redacted(Redacted(Object(fields), b), a).fields;
    assert x.Keys == y.Keys;
    assert x == y;
  }

  lemma ElementsCommute(elems: seq<Json>, a: seq<PathSeg>, b: seq<PathSeg>)
    requires a != [] && b != [] && a[0] == b[0] == ArrayWildcard
    ensures Redacted(Redacted(Array(elems), a), b) == Redacted(Redacted(Array(elems), b), a)
    decreases |a|, 0
  {
    var x, y := Redacted(Redacted(Array(elems), a), b).elems, Redacted(Redacted(Array(elems), b), a).elems;
    forall i | 0 <= i < |elems| ensures x[i] == y[i] {
      if |a| > 1 && |b| > 1 { RedactsCommute(elems[i], a[1..], b[1..]); }
      if |a| == 1 && |b| > 1 { RedactedNull(b[1..]); }
      if |b| == 1 && |a| > 1 { RedactedNull(a[1..]); }
    }
    assert x == y;
  }

  lemma RedactedNull(segs: seq<PathSeg>)
    ensures Redacted(Null, segs) == Null
  {
  }

  // ---- What a rule reaches ----

  datatype Step = Key(name: string) | Index(i: nat)

  /** The value at a location, if there is one. */
  function At(node: Json, loc: seq<Step>): Option<Json>
    decreases |loc|
  {
    if loc == [] then Some(node) else
      match (loc[0], node)
      case (Key(name), Object(fields)) => if name in fields then At(fields[name], loc[1..]) else None
      case (Index(i), Array(elems)) => if i < |elems| then At(elems[i], loc[1..]) else None
      case _ => None
  }

  predicate SegMatches(seg: PathSeg, step: Step) {
    match (seg, step)
    case (Field(a), Key(b)) => a == b
    case (ArrayWildcard, Index(_)) => true
    case _ => false
  }

  /** The path and the location agree for as long as both last. */
  predicate OnPath(segs: seq<PathSeg>, loc: seq<Step>) {
    forall i :: 0 <= i < |segs| && i < |loc| ==> SegMatches(segs[i], loc[i])
  }

  lemma OnPathTail(segs: seq<PathSeg>, loc: seq<Step>)
    requires segs != [] && loc != []
    ensures OnPath(segs, loc) <==> SegMatches(segs[0], loc[0]) && OnPath(segs[1..], loc[1..])
  {
    if SegMatches(segs[0], loc[0]) && OnPath(segs[1..], loc[1..]) {
      forall i | 0 <= i < |segs| && i < |loc| ensures SegMatches(segs[i], loc[i]) {
        if i > 0 { assert segs[i] == segs[1..][i - 1] && loc[i] == loc[1..][i - 1]; }
      }
    }
    if OnPath(segs, loc) {
      forall i | 0 <= i < |segs[1..]| && i < |loc[1..]| ensures SegMatches(segs[1..][i], loc[1..][i]) {
        assert SegMatches(segs[i + 1], loc[i + 1]);
      }
    }
  }

  /** Every location off the rule's path keeps its value. */
  lemma {:induction false} OffPathUnchanged(node: Json, segs: seq<PathSeg>, loc: seq<Step>)
    requires !OnPath(segs, loc)
    ensures At(Redacted(node, segs), loc) == At(node, loc)
    decreases |loc|
  {
    OnPathTail(segs, loc);
    match (loc[0], node) {
      case (Key(name), Object(fields)) =>
        if name in fields && SegMatches(segs[0], loc[0]) && |segs| > 1 {
          OffPathUnchanged(fields[name], segs[1..], loc[1..]);
        }
      case (Index(i), Array(elems)) =>
        if i < |elems| && SegMatches(segs[0], loc[0]) && |segs| > 1 { OffPathUnchanged(elems[i], segs[1..], loc[1..]); }
      case _ =>
    }
  }

  /** Nothing survives at or below the end of the path; elements named by a final wildcard remain as nulls. */
  lemma {:induction false} OnPathRemoved(node: Json, segs: seq<PathSeg>, loc: seq<Step>)
    requires segs != [] && |loc| >= |segs| && OnPath(segs, loc)
    ensures At(Redacted(node, segs), loc)
         == if segs[|segs| - 1].ArrayWildcard? && |loc| == |segs| && At(node, loc).Some? then Some(Null) else None
    decreases |loc|
  {
    OnPathTail(segs, loc);
    match (loc[0], node) {
      case (Key(name), Object(fields)) =>
        if name in fields && |segs| > 1 { OnPathRemoved(fields[name], segs[1..], loc[1..]); }
      case (Index(i), Array(elems)) =>
        if i < |elems| {
          if |segs| > 1 {
            OnPathRemoved(elems[i], segs[1..], loc[1..]);
          } else {
            assert At(Null, loc[1..]) == if |loc| == 1 then Some(Null) else None;
          }
        }
      case _ =>
    }
  }

  /** Above the end of the path, a location keeps its value except for what the rest of the path removes from it. */
  lemma {:induction false} AbovePathRedacted(node: Json, segs: seq<PathSeg>, loc: seq<Step>)
    requires |loc| < |segs| && OnPath(segs, loc)
    ensures At(Redacted(node, segs), loc)
         == match At(node, loc) case Some(v) => Some(Redacted(v, segs[|loc|..])) case None => None
    decreases |loc|
  {
    if loc != [] {
      OnPathTail(segs, loc);
      assert segs[1..][|loc[1..]|..] == segs[|loc|..];
      match (loc[0], node) {
        case (Key(name), Object(fields)) =>
          if name in fields { AbovePathRedacted(fields[name], segs[1..], loc[1..]); }
        case (Index(i), Array(elems)) =>
          if i < |elems| { AbovePathRedacted(elems[i], segs[1..], loc[1..]); }
        case _ =>
      }
    }
  }

  // ---- Many rules ----

  /** Applies the rules of a plugin one after another. */
  function RedactAll(u: Unicode, node: Json, rules: seq<string>): Json {
    if rules == [] then node
    else Redacted(RedactAll(u, node, rules[..|rules| - 1]), RulePath(u, rules[|rules| - 1]))
  }

  lemma {:induction false} RuleAbsorbed(u: Unicode, node: Json, rules: seq<string>, rule: string)
    requires rule in rules
    ensures Redacted(RedactAll(u, node, rules), RulePath(u, rule)) == RedactAll(u, node, rules)
  {
    var front, last := rules[..|rules| - 1], rules[|rules| - 1];
    var before := RedactAll(u, node, front);
    if last == rule {
      RedactTwice(before, RulePath(u, rule));
    } else {
      RuleAbsorbed(u, node, front, rule);
      RedactsCommute(before, RulePath(u, last), RulePath(u, rule));
    }
  }

  lemma {:induction false} RulesAbsorbed(u: Unicode, node: Json, rules: seq<string>, more: seq<string>)
    requires forall r :: r in more ==> r in rules
    ensures RedactAll(u, RedactAll(u, node, rules), more) == RedactAll(u, node, rules)
  {
    if more != [] {
      RulesAbsorbed(u, node, rules, more[..|more| - 1]);
      RuleAbsorbed(u, node, rules, more[|more| - 1]);
    }
  }

  lemma {:induction false} RulePassesThrough(u: Unicode, node: Json, rules: seq<string>, segs: seq<PathSeg>)
    ensures RedactAll(u, Redacted(node, segs), rules) == Redacted(RedactAll(u, node, rules), segs)
  {
    if rules != [] {
      RulePassesThrough(u, node, rules[..|rules| - 1], segs);
      RedactsCommute(RedactAll(u, node, rules[..|rules| - 1]), segs, RulePath(u, rules[|rules| - 1]));
    }
  }

  lemma {:induction false} RuleListsCommute(u: Unicode, node: Json, a: seq<string>, b: seq<string>)
    ensures RedactAll(u, RedactAll(u, node, a), b) == RedactAll(u, RedactAll(u, node, b), a)
  {
    if a != [] {
      RuleListsCommute(u, node, a[..|a| - 1], b);
      RulePassesThrough(u, RedactAll(u, node, a[..|a| - 1]), b, RulePath(u, a[|a| - 1]));
    }
  }

  /** The logged data depends only on the set of rules, not on their order or repetition. */
  lemma RulesAreASet(u: Unicode, node: Json, a: seq<string>, b: seq<string>)
    requires forall r :: r in a <==> r in b
    ensures RedactAll(u, node, a) == RedactAll(u, node, b)
  {
    RulesAbsorbed(u, node, a, b);
    RulesAbsorbed(u, node, b, a);
    RuleListsCommute(u, node, a, b);
  }

  // ---- What all rules together reach ----

  /** The rule's path ends at the location or above it. */
  predicate Covers(u: Unicode, rule: string, loc: seq<Step>) {
    var path := RulePath(u, rule);
    path != [] && |path| <= |loc| && OnPath(path, loc)
  }

  /** The location lies on the rule's path, above or below its end. */
  predicate Touches(u: Unicode, rule: string, loc: seq<Step>) {
    RulePath(u, rule) != [] && OnPath(RulePath(u, rule), loc)
  }

  /**
   `after` is `before` with the rules applied, location by location: what a rule covers is gone, or null;
   what no rule touches keeps its value; what no rule covers is still there, and nothing is added.
   */
  ghost predicate Cleared(u: Unicode, rules: seq<string>, before: Json, after: Json) {
    && (forall rule, loc :: rule in rules && Covers(u, rule, loc) ==>
          At(after, loc) == None || At(after, loc) == Some(Null))
    && (forall loc :: (forall rule :: rule in rules ==> !Touches(u, rule, loc)) ==> At(after, loc) == At(before, loc))
    && (forall loc :: (forall rule :: rule in rules ==> !Covers(u, rule, loc)) ==>
          (At(after, loc).Some? <==> At(before, loc).Some?))
    && (forall loc :: At(after, loc).Some? ==> At(before, loc).Some?)
  }

  /** One rule neither adds a location nor takes one away that it does not cover. */
  lemma RuleKeepsOthers(u: Unicode, node: Json, rule: string, loc: seq<Step>)
    ensures var after := Redacted(node, RulePath(u, rule));
            && (At(after, loc).Some? ==> At(node, loc).Some?)
            && (!Covers(u, rule, loc) ==> (At(after, loc).Some? <==> At(node, loc).Some?))
            && (!Touches(u, rule, loc) ==> At(after, loc) == At(node, loc))
  {
    var path := RulePath(u, rule);
    hide RulePath, At;
    if path != [] {
      if !OnPath(path, loc) {
        OffPathUnchanged(node, path, loc);
      } else if |loc| < |path| {
        AbovePathRedacted(node, path, loc);
      } else {
        OnPathRemoved(node, path, loc);
      }
    }
  }

  lemma {:induction false} RulesKeepOthers(u: Unicode, node: Json, rules: seq<string>, loc: seq<Step>)
    ensures At(RedactAll(u, node, rules), loc).Some? ==> At(node, loc).Some?
    ensures (forall rule :: rule in rules ==> !Touches(u, rule, loc)) ==>
              At(RedactAll(u, node, rules), loc) == At(node, loc)
    ensures (forall rule :: rule in rules ==> !Covers(u, rule, loc)) ==>
              (At(RedactAll(u, node, rules), loc).Some? <==> At(node, loc).Some?)
  {
    hide At, Redacted, Covers, Touches, RulePath;
    if rules != [] {
      var front, last := rules[..|rules| - 1], rules[|rules| - 1];
      RulesKeepOthers(u, node, front, loc);
      RuleKeepsOthers(u, RedactAll(u, node, front), last, loc);
    }
  }

  lemma CoveredIsGone(u: Unicode, node: Json, rules: seq<string>, rule: string, loc: seq<Step>)
    requires rule in rules && Covers(u, rule, loc)
    ensures At(RedactAll(u, node, rules), loc) == None || At(RedactAll(u, node, rules), loc) == Some(Null)
  {
    RuleAbsorbed(u, node, rules, rule);
    OnPathRemoved(RedactAll(u, node, rules), RulePath(u, rule), loc);
    hide At, Redacted, RedactAll, RulePath;
  }

  lemma RulesClear(u: Unicode, node: Json, rules: seq<string>)
    ensures Cleared(u, rules, node, RedactAll(u, node, rules))
  {
    hide At, Redacted, RedactAll, RulePath, Covers, Touches;
    forall rule, loc | rule in rules && Covers(u, rule, loc)
      ensures At(RedactAll(u, node, rules), loc) == None || At(RedactAll(u, node, rules), loc) == Some(Null)
    {
      CoveredIsGone(u, node, rules, rule, loc);
    }
    forall loc ensures At(RedactAll(u, node, rules), loc).Some? ==> At(node, loc).Some?
               ensures (forall rule :: rule in rules ==> !Touches(u, rule, loc)) ==>
                         At(RedactAll(u, node, rules), loc) == At(node, loc)
               ensures (forall rule :: rule in rules ==> !Covers(u, rule, loc)) ==>
                         (At(RedactAll(u, node, rules), loc).Some? <==> At(node, loc).Some?)
    {
      RulesKeepOthers(u, node, rules, loc);
    }
  }
}
