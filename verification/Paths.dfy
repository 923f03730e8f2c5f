/** The two translators of route patterns: the router's, which scans characters, and the one that
    the OpenAPI document uses, which rewrites '/'-segments. An application registers a route with
    the first and documents it with the second. */
module Paths {

  // ------------------------------------------------------------ split and join

  /** Position of the first `c`, or the length. */
  function Find(s: string, c: char): (i: nat)
    ensures i <= |s|
    ensures forall j | 0 <= j < i :: s[j] != c
    ensures i < |s| ==> s[i] == c
  {
    if s == "" || s[0] == c then 0 else 1 + Find(s[1..], c)
  }

  function Split(s: string): (segments: seq<string>)
    ensures segments != []
    decreases |s|
  {
    var i := Find(s, '/');
    if i == |s| then [s] else [s[..i]] + Split(s[i + 1..])
  }

  function Join(segments: seq<string>): string
    requires segments != []
  {
    if |segments| == 1 then segments[0] else segments[0] + "/" + Join(segments[1..])
  }

  ghost predicate SlashFree(segments: seq<string>) {
    forall s | s in segments :: '/' !in s
  }

  lemma {:induction false} SplitIsSlashFree(s: string)
    ensures SlashFree(Split(s))
    decreases |s|
  {
    var i := Find(s, '/');
    if i < |s| {
      SplitIsSlashFree(s[i + 1..]);
    }
  }

  lemma {:induction false} JoinSplit(s: string)
    ensures Join(Split(s)) == s
    decreases |s|
  {
    var i := Find(s, '/');
    if i < |s| {
      JoinSplit(s[i + 1..]);
      assert s == s[..i] + "/" + s[i + 1..];
    }
  }

  lemma FindInPrefix(a: string, b: string, c: char)
    requires c !in a && b != "" && b[0] == c
    ensures Find(a + b, c) == |a|
  {
    assert (a + b)[|a|] == c;
    assert forall j | 0 <= j < |a| :: (a + b)[j] == a[j] && a[j] in a;
  }

  lemma {:induction false} SplitJoin(segments: seq<string>)
    requires segments != [] && SlashFree(segments)
    ensures Split(Join(segments)) == segments
    decreases |segments|
  {
    if |segments| == 1 {
      assert segments[0] in segments;
    } else {
      var head, rest := segments[0], Join(segments[1..]);
      assert head in segments && SlashFree(segments[1..]);
      SplitJoin(segments[1..]);
      SplitAtSlash(head, rest);
      assert segments == [head] + segments[1..];
    }
  }

  lemma SplitAtSlash(head: string, rest: string)
    requires '/' !in head
    ensures Split(head + "/" + rest) == [head] + Split(rest)
  {
    var s := head + ("/" + rest);
    assert s == head + "/" + rest;
    FindInPrefix(head, "/" + rest, '/');
    assert s[..|head|] == head && s[|head| + 1..] == rest;
  }

  function Map(f: string -> string, segments: seq<string>): (r: seq<string>)
    ensures |r| == |segments| && forall i | 0 <= i < |r| :: r[i] == f(segments[i])
  {
    seq(|segments|, i requires 0 <= i < |segments| => f(segments[i]))
  }

  // ---------------------------------------------------------- segment rewriters

  /** `:name` becomes `{name}` where the segment starts with a colon. */
  function NormalizeSegment(s: string): string {
    if s != "" && s[0] == ':' then "{" + s[1..] + "}" else s
  }

  /** The first colon of a segment, wherever it stands, opens the parameter. */
  function TranslateSegment(s: string): string {
    var i := Find(s, ':');
    if i == |s| then s else s[..i] + "{" + s[i + 1..] + "}"
  }

  function Normalize(path: string): string {
    Join(Map(NormalizeSegment, Split(path)))
  }

  function Translate(path: string): string {
    Join(Map(TranslateSegment, Split(path)))
  }

  // ------------------------------------------------------------- the router's scan

  /** What the scan emits from a position on. */
  function Scan(s: string): string
    decreases |s|
  {
    if s == "" then ""
    else if s[0] == ':' then
      var i := 1 + Find(s[1..], '/');
      "{" + s[1..i] + "}" + Scan(s[i..])
    else [s[0]] + Scan(s[1..])
  }

  /** The inner loop: copies the parameter's name and stops before the next slash. */
  method CopyName(path: string, start: nat, out: string) returns (copied: string, i: nat)
    requires start <= |path|
    ensures start <= i <= |path| && copied == out + path[start..i]
    ensures '/' !in path[start..i] && (i < |path| ==> path[i] == '/')
  {
    copied, i := out, start;
    while i < |path| && path[i] != '/'
      invariant start <= i <= |path|
      invariant copied == out + path[start..i]
      invariant '/' !in path[start..i]
    {
      copied := copied + [path[i]];
      i := i + 1;
    }
  }

  method TranslatePath(path: string) returns (out: string)
    ensures out == Translate(path)
  {
    out := "";
    var i := 0;
    while i < |path|
      invariant 0 <= i <= |path|
      invariant Scan(path) == out + Scan(path[i..])
    {
      var c := path[i];
      ghost var before, start := out, i + 1;
      i := i + 1;
      if c == ':' {
        out := out + "{";
        out, i := CopyName(path, i, out);
        out := out + "}";
        ParameterEnd(path, start, i);
        Regroup(before, path[start..i], Scan(path[i..]));
      } else {
        out := out + [c];
        PlainCharacter(path, start);
        Prepend(before, c, Scan(path[i..]));
      }
    }
    ScanIsSegmentwise(path);
  }

  lemma Regroup(before: string, name: string, rest: string)
    ensures before + "{" + name + "}" + rest == before + ("{" + name + "}" + rest)
  {
  }

  lemma Prepend(before: string, c: char, rest: string)
    ensures before + [c] + rest == before + ([c] + rest)
  {
  }

  lemma PlainCharacter(path: string, end: nat)
    requires 1 <= end <= |path| && path[end - 1] != ':'
    ensures Scan(path[end - 1..]) == [path[end - 1]] + Scan(path[end..])
  {
    assert path[end - 1..][1..] == path[end..];
  }

  lemma ParameterEnd(path: string, start: nat, end: nat)
    requires 1 <= start <= end <= |path| && path[start - 1] == ':'
    requires '/' !in path[start..end] && (end < |path| ==> path[end] == '/')
    ensures Scan(path[start - 1..]) == "{" + path[start..end] + "}" + Scan(path[end..])
  {
    var s := path[start - 1..];
    assert s[1..] == path[start..];
    assert path[start..] == path[start..end] + path[end..];
    if end < |path| {
      FindInPrefix(path[start..end], path[end..], '/');
    } else {
      assert path[start..] == path[start..end];
      assert Find(path[start..], '/') == |path[start..]|;
    }
    var i := 1 + Find(s[1..], '/');
    assert s[1..i] == path[start..end] && s[i..] == path[end..];
  }

  /** Within one segment the scan rewrites as `TranslateSegment` does, then goes on at the slash. */
  lemma {:induction false} ScanSegment(s: string)
    ensures var i := Find(s, '/'); Scan(s) == TranslateSegment(s[..i]) + Scan(s[i..])
    decreases |s|
  {
    var i := Find(s, '/');
    if s == "" || s[0] == '/' {
      assert s[..i] == "" && s[i..] == s;
    } else if s[0] == ':' {
      ScanName(s);
    } else {
      ScanSegment(s[1..]);
      assert Find(s[1..], '/') == i - 1;
      ScanPlain(s, i);
    }
  }

  lemma ScanName(s: string)
    requires s != "" && s[0] == ':'
    ensures var i := Find(s, '/'); Scan(s) == TranslateSegment(s[..i]) + Scan(s[i..])
  {
    var i := Find(s, '/');
    assert Find(s[1..], '/') == i - 1;
    assert s[..i][1..] == s[1..i];
    TranslateName(s[..i]);
    assert Scan(s) == "{" + s[1..i] + "}" + Scan(s[i..]);
    hide *;
  }

  lemma TranslateName(segment: string)
    requires segment != "" && segment[0] == ':'
    ensures TranslateSegment(segment) == "{" + segment[1..] + "}"
  {
    assert segment[..0] + "{" == "{";
  }

  lemma ScanPlain(s: string, i: nat)
    requires 1 <= i <= |s| && s[0] != ':'
    requires Scan(s[1..]) == TranslateSegment(s[1..][..i - 1]) + Scan(s[1..][i - 1..])
    ensures Scan(s) == TranslateSegment(s[..i]) + Scan(s[i..])
  {
    assert Scan(s) == [s[0]] + Scan(s[1..]);
    hide *;
    var tail := s[1..][..i - 1];
    assert s[..i] == [s[0]] + tail && s[1..][i - 1..] == s[i..];
    TranslateCons(s[0], tail);
    Associate([s[0]], TranslateSegment(tail), Scan(s[i..]));
  }

  lemma Associate(a: string, b: string, c: string)
    ensures a + (b + c) == a + b + c
  {
  }

  lemma TranslateCons(c: char, s: string)
    requires c != ':'
    ensures TranslateSegment([c] + s) == [c] + TranslateSegment(s)
  {
    var t := [c] + s;
    assert t[1..] == s;
    var i := Find(s, ':');
    assert Find(t, ':') == 1 + i;
    if i < |s| {
      assert t[..1 + i] == [c] + s[..i] && t[2 + i..] == s[i + 1..];
    }
  }

  lemma {:induction false} ScanIsSegmentwise(path: string)
    ensures Scan(path) == Translate(path)
    decreases |path|
  {
    var i := Find(path, '/');
    ScanSegment(path);
    var all := Map(TranslateSegment, Split(path));
    if i == |path| {
      assert path[..i] == path && path[i..] == "";
      assert all == [TranslateSegment(path)];
    } else {
      ScanIsSegmentwise(path[i + 1..]);
      assert path[i..][0] == '/' && path[i..][1..] == path[i + 1..];
      var rest := Map(TranslateSegment, Split(path[i + 1..]));
      assert all == [TranslateSegment(path[..i])] + rest;
      assert all[1..] == rest;
    }
  }

  // ------------------------------------------------------- the document's rewrite

  lemma {:induction false} JoinSnoc(segments: seq<string>, s: string)
    requires segments != []
    ensures Join(segments + [s]) == Join(segments) + "/" + s
    decreases |segments|
  {
    assert (segments + [s])[1..] == segments[1..] + [s];
    if |segments| == 1 {
      assert segments[1..] + [s] == [s];
    } else {
      JoinSnoc(segments[1..], s);
    }
  }

  predicate StartsWithSlash(s: string) {
    s != "" && s[0] == '/'
  }

  /** The loop puts a slash before a segment when something is there already or the path starts with
      one, and the fix-up takes the extra leading slash away again: on every string this is split,
      rewrite, join. */
  method NormalizePath(path: string) returns (out: string)
    ensures out == Normalize(path)
  {
    out := "";
    var segments := Split(path);
    ghost var rewritten := Map(NormalizeSegment, segments);
    var i := 0;
    while i < |segments|
      invariant 0 <= i <= |segments|
      invariant out == LoopOut(path, rewritten[..i])
    {
      var segment := segments[i];
      ghost var before := out;
      if out != "" || StartsWithSlash(path) {
        out := out + "/";
      }
      if segment != "" && segment[0] == ':' {
        out := out + "{";
        out := out + segment[1..];
        out := out + "}";
      } else {
        out := out + segment;
      }
      NextSegment(path, i, before, out);
      i := i + 1;
    }
    assert rewritten[..|segments|] == rewritten;
    ExtraSlash(path);
    if StartsWithSlash(path) && |out| >= 2 && out[..2] == "//" {
      out := out[1..];
    }
  }

  /** The buffer after some segments: their join, behind the extra slash if the path starts with one. */
  function LoopOut(path: string, done: seq<string>): string {
    if done == [] then "" else (if StartsWithSlash(path) then "/" else "") + Join(done)
  }

  lemma NextSegment(path: string, i: nat, before: string, after: string)
    requires i < |Split(path)|
    requires var rewritten := Map(NormalizeSegment, Split(path));
             && before == LoopOut(path, rewritten[..i])
             && after == before + (if before != "" || StartsWithSlash(path) then "/" else "") + rewritten[i]
    ensures after == LoopOut(path, Map(NormalizeSegment, Split(path))[..i + 1])
  {
    var rewritten := Map(NormalizeSegment, Split(path));
    var done := rewritten[..i];
    assert rewritten[..i + 1] == done + [rewritten[i]];
    if i > 0 {
      FirstNotEmpty(path, done);
    }
    hide *;
    AppendSegment(path, done, rewritten[i]);
  }

  lemma AppendSegment(path: string, done: seq<string>, segment: string)
    requires done != [] ==> LoopOut(path, done) != ""
    ensures var before := LoopOut(path, done);
            LoopOut(path, done + [segment])
            == before + (if before != "" || StartsWithSlash(path) then "/" else "") + segment
  {
    if done == [] {
      assert done + [segment] == [segment];
    } else {
      JoinSnoc(done, segment);
    }
  }

  /** Only a path that starts with a slash has an empty first segment in front of others. */
  lemma FirstNotEmpty(path: string, done: seq<string>)
    requires |Split(path)| > 1 && 0 < |done| && done[0] == NormalizeSegment(Split(path)[0])
    ensures LoopOut(path, done) != ""
  {
    var i := Find(path, '/');
    assert Split(path)[0] == path[..i];
    if !StartsWithSlash(path) {
      assert i > 0 && done[0] != "";
    }
  }

  lemma ExtraSlash(path: string)
    ensures var out := LoopOut(path, Map(NormalizeSegment, Split(path)));
            if StartsWithSlash(path) then |out| >= 2 && out[..2] == "//" && out[1..] == Normalize(path)
            else out == Normalize(path)
  {
    if StartsWithSlash(path) {
      var i := Find(path, '/');
      assert i == 0 && Split(path) == [path[..0]] + Split(path[1..]);
      var rewritten := Map(NormalizeSegment, Split(path));
      assert rewritten[0] == "" && |rewritten| > 1;
      assert Normalize(path) == "" + "/" + Join(rewritten[1..]);
    }
  }

  // ---------------------------------------------------------------- agreement

  /** Every segment that contains a colon begins with one. */
  ghost predicate ColonsLead(path: string) {
    forall s | s in Split(path) && ':' in s :: s[0] == ':'
  }

  lemma SegmentsAgree(s: string)
    ensures TranslateSegment(s) == NormalizeSegment(s) <==> (':' in s ==> s[0] == ':')
  {
    var i := Find(s, ':');
    if ':' in s && s[0] != ':' {
      assert i < |s|;
      assert |TranslateSegment(s)| == |s| + 1;
    }
  }

  lemma TranslateKeepsSlashFree(s: string)
    requires '/' !in s
    ensures '/' !in TranslateSegment(s) && '/' !in NormalizeSegment(s)
  {
  }

  lemma RewrittenSlashFree(path: string)
    ensures SlashFree(Map(TranslateSegment, Split(path))) && SlashFree(Map(NormalizeSegment, Split(path)))
  {
    SplitIsSlashFree(path);
    forall i | 0 <= i < |Split(path)|
      ensures '/' !in TranslateSegment(Split(path)[i]) && '/' !in NormalizeSegment(Split(path)[i])
    {
      TranslateKeepsSlashFree(Split(path)[i]);
    }
  }

  /** The router serves the path that the document shows if and only if colons only lead. */
  lemma TranslatorsAgreeIff(path: string)
    ensures Translate(path) == Normalize(path) <==> ColonsLead(path)
  {
    var segments := Split(path);
    var t, n := Map(TranslateSegment, segments), Map(NormalizeSegment, segments);
    RewrittenSlashFree(path);
    SplitJoin(t);
    SplitJoin(n);
    forall i | 0 <= i < |segments|
      ensures t[i] == n[i] <==> (':' in segments[i] ==> segments[i][0] == ':')
    {
      SegmentsAgree(segments[i]);
    }
    if ColonsLead(path) {
      assert forall i | 0 <= i < |segments| :: segments[i] in segments;
      assert t == n;
    } else {
      var s :| s in segments && ':' in s && s[0] != ':';
      var i :| 0 <= i < |segments| && segments[i] == s;
      assert t[i] != n[i];
    }
  }

  /** Normalizing a normalized path changes nothing. */
  lemma NormalizeIdempotent(path: string)
    ensures Normalize(Normalize(path)) == Normalize(path)
  {
    var n := Map(NormalizeSegment, Split(path));
    RewrittenSlashFree(path);
    SplitJoin(n);
    assert Map(NormalizeSegment, n) == n;
  }

  /** Two paths are documented alike only if their segments are rewritten alike. */
  lemma NormalizeBySegments(p: string, q: string)
    ensures Normalize(p) == Normalize(q) <==> Map(NormalizeSegment, Split(p)) == Map(NormalizeSegment, Split(q))
  {
    RewrittenSlashFree(p);
    RewrittenSlashFree(q);
    SplitJoin(Map(NormalizeSegment, Split(p)));
    SplitJoin(Map(NormalizeSegment, Split(q)));
  }

  // ------------------------------------------------------------------ patterns

  /** What a developer writes between two slashes: plain text, a parameter, or text with a parameter
      after it. */
  datatype Part = Plain(text: string) | Parameter(name: string) | Suffixed(text: string, name: string)
  {
    predicate Ok() {
      match this
      case Plain(text) => '/' !in text && ':' !in text
      case Parameter(name) => '/' !in name
      case Suffixed(text, name) => text != "" && '/' !in text && ':' !in text && '/' !in name
    }

    function Written(): string {
      match this
      case Plain(text) => text
      case Parameter(name) => ":" + name
      case Suffixed(text, name) => text + ":" + name
    }

    function Routed(): string {
      match this
      case Plain(text) => text
      case Parameter(name) => "{" + name + "}"
      case Suffixed(text, name) => text + "{" + name + "}"
    }

    function Documented(): string {
      if Parameter? then "{" + name + "}" else Written()
    }
  }

  predicate PartsOk(parts: seq<Part>) {
    forall part | part in parts :: part.Ok()
  }

  function Written(parts: seq<Part>): (segments: seq<string>)
    ensures |segments| == |parts| && forall i | 0 <= i < |parts| :: segments[i] == parts[i].Written()
  {
    seq(|parts|, i requires 0 <= i < |parts| => parts[i].Written())
  }

  function Routed(parts: seq<Part>): (segments: seq<string>)
    ensures |segments| == |parts| && forall i | 0 <= i < |parts| :: segments[i] == parts[i].Routed()
  {
    seq(|parts|, i requires 0 <= i < |parts| => parts[i].Routed())
  }

  function Documented(parts: seq<Part>): (segments: seq<string>)
    ensures |segments| == |parts| && forall i | 0 <= i < |parts| :: segments[i] == parts[i].Documented()
  {
    seq(|parts|, i requires 0 <= i < |parts| => parts[i].Documented())
  }

  lemma PartTranslates(part: Part)
    requires part.Ok()
    ensures '/' !in part.Written()
    ensures TranslateSegment(part.Written()) == part.Routed() && NormalizeSegment(part.Written()) == part.Documented()
  {
    match part
    case Plain(text) => assert Find(text, ':') == |text|;
    case Parameter(name) =>
      FindInPrefix("", ":" + name, ':');
      assert "" + (":" + name) == ":" + name && (":" + name)[..0] + "{" == "{";
    case Suffixed(text, name) =>
      var s := text + (":" + name);
      FindInPrefix(text, ":" + name, ':');
      assert s == text + ":" + name && s[..|text|] == text && s[|text| + 1..] == name && s[0] == text[0];
  }

  /** Every path pattern is served as `{name}` where it says `:name`, at the start of a segment or after
      some text; the document shows `{name}` at the start of a segment only. */
  lemma PatternsTranslate(parts: seq<Part>)
    requires parts != [] && PartsOk(parts)
    ensures Translate(Join(Written(parts))) == Join(Routed(parts))
    ensures Normalize(Join(Written(parts))) == Join(Documented(parts))
  {
    forall i | 0 <= i < |parts|
      ensures '/' !in Written(parts)[i]
      ensures TranslateSegment(Written(parts)[i]) == Routed(parts)[i]
      ensures NormalizeSegment(Written(parts)[i]) == Documented(parts)[i]
    {
      assert parts[i] in parts;
      PartTranslates(parts[i]);
    }
    SplitJoin(Written(parts));
    assert Map(TranslateSegment, Written(parts)) == Routed(parts);
    assert Map(NormalizeSegment, Written(parts)) == Documented(parts);
  }

  function PartOf(segment: string): Part {
    var i := Find(segment, ':');
    if i == |segment| then Plain(segment)
    else if i == 0 then Parameter(segment[1..])
    else Suffixed(segment[..i], segment[i + 1..])
  }

  /** And every path is such a pattern. */
  lemma PathIsPattern(path: string) returns (parts: seq<Part>)
    ensures parts != [] && PartsOk(parts) && Join(Written(parts)) == path
  {
    var segments := Split(path);
    SplitIsSlashFree(path);
    parts := seq(|segments|, i requires 0 <= i < |segments| => PartOf(segments[i]));
    forall i | 0 <= i < |segments|
      ensures parts[i].Ok() && parts[i].Written() == segments[i]
    {
      assert segments[i] in segments;
      PartIsSegment(segments[i]);
    }
    assert Written(parts) == segments;
    JoinSplit(path);
  }

  lemma PartIsSegment(segment: string)
    requires '/' !in segment
    ensures PartOf(segment).Ok() && PartOf(segment).Written() == segment
  {
    var i := Find(segment, ':');
    if i < |segment| {
      assert segment == segment[..i] + ":" + segment[i + 1..];
    }
  }
}
