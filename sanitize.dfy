/** The value-level meaning of `SanitizePipe`: its configuration, the string
    passes and the recursive transform, as functions. The HTML sanitiser it
    calls first is a foreign library and enters only as a parameter. */
module Sanitize {
  import opened Wrappers
  import Text

  /** The closed JSON-like variant the pipe accepts and returns. */
  datatype Value =
    | Null
    | Undefined
    | Bool(b: bool)
    | Num(n: int)
    | Str(s: string)
    | Arr(items: seq<Value>)
    | Obj(fields: map<string, Value>)

  datatype TagsMode = Discard | Escape | RecursiveEscape

  /** What the pipe hands to `sanitize-html`. */
  datatype HtmlOptions = HtmlOptions(
    allowedTags: Option<seq<string>>,
    allowedAttributes: Option<map<string, seq<string>>>,
    disallowedTagsMode: Option<TagsMode>)

  /** `sanitize-html`, left uninterpreted: any function of the text and options. */
  type HtmlSanitizer = (string, HtmlOptions) -> string

  /** `SanitizeConfig`; every field is optional, so each may be undefined. */
  datatype SanitizeConfig = SanitizeConfig(
    allowedTags: Option<seq<string>>,
    allowedAttributes: Option<map<string, seq<string>>>,
    disallowedTagsMode: Option<TagsMode>,
    headerFields: Option<seq<string>>)

  /** One field of a caller's partial configuration: absent (the default
      stays), or present, possibly as `undefined`, which a spread also copies. */
  datatype Override<T> = Keep | Set(value: Option<T>)

  function Apply<T>(o: Override<T>, default: Option<T>): Option<T> {
    match o
    case Keep => default
    case Set(v) => v
  }

  datatype PartialConfig = PartialConfig(
    allowedTags: Override<seq<string>>,
    allowedAttributes: Override<map<string, seq<string>>>,
    disallowedTagsMode: Override<TagsMode>,
    headerFields: Override<seq<string>>)

  const DefaultHeaderFields: seq<string> := [
    "email", "theme", "subject", "title", "from", "to", "cc", "bcc",
    "username", "recipient", "sender", "name", "firstname", "lastname",
    "phone", "address"]

  const DefaultConfig: SanitizeConfig :=
    SanitizeConfig(Some([]), Some(map[]), Some(Escape), Some(DefaultHeaderFields))

  /** The constructor's `{...defaults, ...config}`: no tags, no attributes,
      escape mode and the sixteen header names, each replaced by the caller's
      field when the caller gives one. */
  function ResolveConfig(partial: Option<PartialConfig>): (c: SanitizeConfig)
    ensures partial.None? ==> c == DefaultConfig
    ensures partial.Some? ==>
      var p := partial.value;
      && (if p.allowedTags.Set? then c.allowedTags == p.allowedTags.value else c.allowedTags == Some([]))
      && (if p.allowedAttributes.Set? then c.allowedAttributes == p.allowedAttributes.value
          else c.allowedAttributes == Some(map[]))
      && (if p.disallowedTagsMode.Set? then c.disallowedTagsMode == p.disallowedTagsMode.value
          else c.disallowedTagsMode == Some(Escape))
      && (if p.headerFields.Set? then c.headerFields == p.headerFields.value
          else c.headerFields == Some(DefaultHeaderFields))
  {
    match partial
    case None => DefaultConfig
    case Some(p) =>
      SanitizeConfig(
        Apply(p.allowedTags, DefaultConfig.allowedTags),
        Apply(p.allowedAttributes, DefaultConfig.allowedAttributes),
        Apply(p.disallowedTagsMode, DefaultConfig.disallowedTagsMode),
        Apply(p.headerFields, DefaultConfig.headerFields))
  }

  function HtmlOptionsOf(config: SanitizeConfig): HtmlOptions {
    HtmlOptions(config.allowedTags, config.allowedAttributes, config.disallowedTagsMode)
  }

  // ---------------------------------------------------------------------
  // Control characters

  /** C0 controls other than tab, line feed and carriage return, and DEL. */
  predicate IsControl(c: char) {
    var n := c as int;
    n <= 0x08 || (0x0B <= n <= 0x0C) || (0x0E <= n <= 0x1F) || n == 0x7F
  }

  predicate NoControl(s: string) {
    forall i :: 0 <= i < |s| ==> !IsControl(s[i])
  }

  /** The per-character replace that maps every control character to the
      empty string: what is left is exactly the non-control characters, each
      as often as in the input. */
  function StripControl(s: string): (r: string)
    ensures NoControl(r)
    ensures |r| <= |s|
    decreases |s|
  {
    if s == [] then []
    else StripControl(s[..|s| - 1]) + (if IsControl(s[|s| - 1]) then [] else [s[|s| - 1]])
  }

  /** Every non-control character is kept as often as it occurs. */
  lemma {:induction false} StripControlKeeps(s: string, c: char)
    requires !IsControl(c)
    ensures multiset(StripControl(s))[c] == multiset(s)[c]
    decreases |s|
  {
    if s != [] {
      var init, last := s[..|s| - 1], s[|s| - 1];
      assert s == init + [last];
      StripControlKeeps(init, c);
    }
  }

  /** The pass works character by character: on a concatenation it is the
      concatenation of the results, so the order of what is kept is the
      input's order. */
  lemma {:induction false} StripControlAppend(a: string, b: string)
    ensures StripControl(a + b) == StripControl(a) + StripControl(b)
    decreases |b|
  {
    if b == [] {
      assert a + b == a;
    } else {
      var init, last := b[..|b| - 1], b[|b| - 1];
      assert (a + b)[..|a + b| - 1] == a + init;
      assert (a + b)[|a + b| - 1] == last;
      StripControlAppend(a, init);
    }
  }

  /** A string without control characters passes unchanged, and only such a
      string does. */
  lemma {:induction false} StripControlIdentity(s: string)
    ensures StripControl(s) == s <==> NoControl(s)
    decreases |s|
  {
    if s != [] && NoControl(s) {
      StripControlIdentity(s[..|s| - 1]);
    }
  }

  // ---------------------------------------------------------------------
  // Header-bound fields

  predicate IsHeaderBreak(c: char) {
    c == '\r' || c == '\n' || c == '\t'
  }

  predicate NoHeaderBreak(s: string) {
    forall i :: 0 <= i < |s| ==> !IsHeaderBreak(s[i])
  }

  predicate NoDoubleWhitespace(s: string) {
    forall i :: 0 <= i < |s| - 1 ==> !(Text.IsWhitespace(s[i]) && Text.IsWhitespace(s[i + 1]))
  }

  /** What the header branch guarantees: a single line, no run of
      whitespace, nothing to trim. */
  predicate HeaderSafe(s: string) {
    && NoHeaderBreak(s)
    && NoDoubleWhitespace(s)
    && Text.NoEdgeWhitespace(s)
  }

  function DropHeaderBreaks(s: string): (r: string)
    ensures |r| <= |s|
    decreases |s|
  {
    if s != [] && IsHeaderBreak(s[0]) then DropHeaderBreaks(s[1..]) else s
  }

  /** What the drop leaves is a suffix of its input that starts with no break. */
  lemma {:induction false} DropHeaderBreaksSuffix(s: string)
    ensures var r := DropHeaderBreaks(s); r == s[|s| - |r|..] && (r != [] ==> !IsHeaderBreak(r[0]))
    decreases |s|
  {
    if s != [] && IsHeaderBreak(s[0]) {
      DropHeaderBreaksSuffix(s[1..]);
      var r := DropHeaderBreaks(s);
      assert s[1..][|s| - 1 - |r|..] == s[|s| - |r|..];
    }
  }

  /** `replace(/[\r\n\t]+/g, ' ')`: every run of CR, LF and TAB becomes one
      space, every other character stays. */
  function CollapseHeaderBreaks(s: string): (r: string)
    ensures |r| <= |s|
    decreases |s|
  {
    if s == [] then []
    else if IsHeaderBreak(s[0]) then
      var rest := DropHeaderBreaks(s[1..]);
      [' '] + CollapseHeaderBreaks(rest)
    else
      [s[0]] + CollapseHeaderBreaks(s[1..])
  }

  /** A string without CR, LF or TAB is left as it is. */
  lemma {:induction false} CollapseHeaderBreaksIdentity(s: string)
    requires NoHeaderBreak(s)
    ensures CollapseHeaderBreaks(s) == s
    decreases |s|
  {
    if s != [] {
      CollapseHeaderBreaksIdentity(s[1..]);
    }
  }

  /** The break pass leaves no CR, LF or TAB, and adds no control character. */
  lemma {:induction false} CollapseHeaderBreaksSafe(s: string)
    ensures NoHeaderBreak(CollapseHeaderBreaks(s))
    ensures NoControl(s) ==> NoControl(CollapseHeaderBreaks(s))
    decreases |s|
  {
    if s != [] {
      var tail := s[1..];
      var rest := if IsHeaderBreak(s[0]) then DropHeaderBreaks(tail) else tail;
      var head := if IsHeaderBreak(s[0]) then ' ' else s[0];
      DropHeaderBreaksSuffix(tail);
      assert rest == tail[|tail| - |rest|..];
      DropKeeps(s, 1);
      DropKeeps(tail, |tail| - |rest|);
      assert NoControl(s) ==> !IsControl(s[0]);
      CollapseHeaderBreaksSafe(rest);
      var r, t := CollapseHeaderBreaks(s), CollapseHeaderBreaks(rest);
      assert r == [head] + t;
      PrependKeeps(head, t);
    }
  }

  /** `replace(/\s{2,}/g, ' ')`: every run of two or more whitespace
      characters becomes one space; a single whitespace character stays. */
  function CollapseSpaces(s: string): (r: string)
    ensures |r| <= |s|
    decreases |s|
  {
    if s == [] then []
    else if |s| >= 2 && Text.IsWhitespace(s[0]) && Text.IsWhitespace(s[1]) then
      [' '] + CollapseSpaces(Text.TrimStart(s))
    else
      [s[0]] + CollapseSpaces(s[1..])
  }

  /** The whitespace pass leaves no two adjacent whitespace characters, keeps
      whether the string starts with whitespace, and adds no break and no
      control character. */
  lemma {:induction false} CollapseSpacesSafe(s: string)
    ensures NoDoubleWhitespace(CollapseSpaces(s))
    ensures s != [] ==> CollapseSpaces(s) != []
                        && (Text.IsWhitespace(CollapseSpaces(s)[0]) <==> Text.IsWhitespace(s[0]))
    ensures NoHeaderBreak(s) ==> NoHeaderBreak(CollapseSpaces(s))
    ensures NoControl(s) ==> NoControl(CollapseSpaces(s))
    decreases |s|
  {
    if s != [] {
      assert NoControl(s) ==> !IsControl(s[0]);
      assert NoHeaderBreak(s) ==> !IsHeaderBreak(s[0]);
      if |s| >= 2 && Text.IsWhitespace(s[0]) && Text.IsWhitespace(s[1]) {
        var rest := Text.TrimStart(s);
        Text.TrimStartSpec(s);
        assert rest == s[|s| - |rest|..];
        DropKeeps(s, |s| - |rest|);
        CollapseSpacesSafe(rest);
        var t := CollapseSpaces(rest);
        assert CollapseSpaces(s) == [' '] + t;
        PrependKeeps(' ', t);
        PrependNoDoubleWhitespace(' ', t);
      } else {
        var rest := s[1..];
        DropKeeps(s, 1);
        CollapseSpacesSafe(rest);
        var t := CollapseSpaces(rest);
        assert CollapseSpaces(s) == [s[0]] + t;
        PrependKeeps(s[0], t);
        PrependNoDoubleWhitespace(s[0], t);
      }
    }
  }

  /** Every character that is not whitespace survives the whitespace pass,
      as often as it occurs. */
  lemma {:induction false} CollapseSpacesKeeps(s: string, c: char)
    requires !Text.IsWhitespace(c)
    ensures multiset(CollapseSpaces(s))[c] == multiset(s)[c]
    decreases |s|
  {
    if |s| >= 2 && Text.IsWhitespace(s[0]) && Text.IsWhitespace(s[1]) {
      var rest := Text.TrimStart(s);
      CollapseSpacesKeeps(rest, c);
      Text.TrimStartKeepsOthers(s, c);
      assert CollapseSpaces(s) == [' '] + CollapseSpaces(rest);
      Text.PrependCount(' ', CollapseSpaces(rest), c);
    } else if s != [] {
      CollapseSpacesKeeps(s[1..], c);
      Text.FirstCount(s, c);
      assert CollapseSpaces(s) == [s[0]] + CollapseSpaces(s[1..]);
      Text.PrependCount(s[0], CollapseSpaces(s[1..]), c);
    }
  }

  /** A whole run of two or more whitespace characters becomes one space. */
  lemma CollapseSpacesRun(run: string, t: string)
    requires |run| >= 2
    requires forall i :: 0 <= i < |run| ==> Text.IsWhitespace(run[i])
    requires t == [] || !Text.IsWhitespace(t[0])
    ensures CollapseSpaces(run + t) == [' '] + CollapseSpaces(t)
  {
    var s := run + t;
    assert s[0] == run[0] && s[1] == run[1];
    TrimStartOfRun(run, t);
  }

  /** A character that does not start a run of two whitespace characters is
      kept as it is: a single whitespace character is not replaced. */
  lemma CollapseSpacesSingle(c: char, t: string)
    requires t == [] || !Text.IsWhitespace(c) || !Text.IsWhitespace(t[0])
    ensures CollapseSpaces([c] + t) == [c] + CollapseSpaces(t)
  {
    var s := [c] + t;
    assert s[0] == c && s[1..] == t;
  }

  lemma {:induction false} TrimStartOfRun(run: string, t: string)
    requires forall i :: 0 <= i < |run| ==> Text.IsWhitespace(run[i])
    requires t == [] || !Text.IsWhitespace(t[0])
    ensures Text.TrimStart(run + t) == t
    decreases |run|
  {
    if run == [] {
      assert run + t == t;
    } else {
      assert (run + t)[1..] == run[1..] + t;
      TrimStartOfRun(run[1..], t);
    }
  }

  /** A character in front of a string without whitespace runs makes none,
      unless both it and the string's first character are whitespace. */
  lemma PrependNoDoubleWhitespace(c: char, t: string)
    requires NoDoubleWhitespace(t)
    requires t != [] && Text.IsWhitespace(c) ==> !Text.IsWhitespace(t[0])
    ensures NoDoubleWhitespace([c] + t)
  {
    var r := [c] + t;
    forall i | 0 <= i < |r| - 1 ensures !(Text.IsWhitespace(r[i]) && Text.IsWhitespace(r[i + 1])) {
      if i > 0 {
        assert r[i] == t[i - 1] && r[i + 1] == t[i];
      }
    }
  }

  /** Putting a character in front keeps the per-character properties that
      the character itself has. */
  lemma PrependKeeps(c: char, t: string)
    ensures !IsHeaderBreak(c) && NoHeaderBreak(t) ==> NoHeaderBreak([c] + t)
    ensures !IsControl(c) && NoControl(t) ==> NoControl([c] + t)
  {
    var r := [c] + t;
    if !IsHeaderBreak(c) && NoHeaderBreak(t) {
      forall i | 0 <= i < |r| ensures !IsHeaderBreak(r[i]) {
        if i > 0 {
          assert r[i] == t[i - 1];
        }
      }
    }
    if !IsControl(c) && NoControl(t) {
      forall i | 0 <= i < |r| ensures !IsControl(r[i]) {
        if i > 0 {
          assert r[i] == t[i - 1];
        }
      }
    }
  }

  /** Trimming keeps every property that holds of all characters or of all
      neighbouring pairs. */
  lemma TrimKeeps(s: string)
    ensures NoHeaderBreak(s) ==> NoHeaderBreak(Text.Trim(s))
    ensures NoControl(s) ==> NoControl(Text.Trim(s))
    ensures NoDoubleWhitespace(s) ==> NoDoubleWhitespace(Text.Trim(s))
  {
    var r := Text.Trim(s);
    Text.TrimSpec(s);
    var k :| Text.TrimmedAt(s, r, k);
    SliceKeeps(s, k, k + |r|);
  }

  lemma DropKeeps(s: string, lo: int)
    requires 0 <= lo <= |s|
    ensures NoHeaderBreak(s) ==> NoHeaderBreak(s[lo..])
    ensures NoControl(s) ==> NoControl(s[lo..])
  {
  }

  lemma SliceKeeps(s: string, lo: int, hi: int)
    requires 0 <= lo <= hi <= |s|
    ensures NoHeaderBreak(s) ==> NoHeaderBreak(s[lo..hi])
    ensures NoControl(s) ==> NoControl(s[lo..hi])
    ensures NoDoubleWhitespace(s) ==> NoDoubleWhitespace(s[lo..hi])
  {
    var r := s[lo..hi];
    if NoDoubleWhitespace(s) {
      forall i | 0 <= i < |r| - 1
        ensures !(Text.IsWhitespace(r[i]) && Text.IsWhitespace(r[i + 1]))
      {
        assert r[i] == s[lo + i] && r[i + 1] == s[lo + i + 1];
      }
    }
  }

  /** The three header passes after control stripping: collapse breaks,
      collapse whitespace runs, trim. */
  function HeaderClean(s: string): (r: string)
    ensures HeaderSafe(r)
    ensures NoControl(s) ==> NoControl(r)
  {
    var broken := CollapseHeaderBreaks(s);
    var spaced := CollapseSpaces(broken);
    CollapseHeaderBreaksSafe(s);
    CollapseSpacesSafe(broken);
    TrimKeeps(spaced);
    Text.TrimSpec(spaced);
    Text.Trim(spaced)
  }

  /** Every character that is not whitespace survives the header passes,
      as often as it occurs: only whitespace is replaced or cut. */
  lemma HeaderCleanKeeps(s: string, c: char)
    requires !Text.IsWhitespace(c)
    ensures multiset(HeaderClean(s))[c] == multiset(s)[c]
  {
    var broken := CollapseHeaderBreaks(s);
    CollapseHeaderBreaksKeeps(s, c);
    CollapseSpacesKeeps(broken, c);
    Text.TrimKeepsOthers(CollapseSpaces(broken), c);
  }

  /** Every character other than CR, LF, TAB and space survives the break
      pass, as often as it occurs. */
  lemma {:induction false} CollapseHeaderBreaksKeeps(s: string, c: char)
    requires !IsHeaderBreak(c) && c != ' '
    ensures multiset(CollapseHeaderBreaks(s))[c] == multiset(s)[c]
    decreases |s|
  {
    if s != [] {
      Text.FirstCount(s, c);
      if IsHeaderBreak(s[0]) {
        var rest := DropHeaderBreaks(s[1..]);
        CollapseHeaderBreaksKeeps(rest, c);
        DropHeaderBreaksKeeps(s[1..], c);
        assert CollapseHeaderBreaks(s) == [' '] + CollapseHeaderBreaks(rest);
        Text.PrependCount(' ', CollapseHeaderBreaks(rest), c);
      } else {
        CollapseHeaderBreaksKeeps(s[1..], c);
        assert CollapseHeaderBreaks(s) == [s[0]] + CollapseHeaderBreaks(s[1..]);
        Text.PrependCount(s[0], CollapseHeaderBreaks(s[1..]), c);
      }
    }
  }

  lemma {:induction false} DropHeaderBreaksKeeps(s: string, c: char)
    requires !IsHeaderBreak(c)
    ensures multiset(DropHeaderBreaks(s))[c] == multiset(s)[c]
    decreases |s|
  {
    if s != [] && IsHeaderBreak(s[0]) {
      DropHeaderBreaksKeeps(s[1..], c);
      Text.FirstCount(s, c);
    }
  }

  /** A header value that is already single-line, free of whitespace runs
      and trimmed passes through the header passes unchanged. */
  lemma HeaderCleanIdentity(s: string)
    ensures HeaderClean(s) == s <==> HeaderSafe(s)
  {
    if HeaderSafe(s) {
      CollapseHeaderBreaksIdentity(s);
      CollapseSpacesIdentity(s);
      Text.TrimIdentity(s);
    }
  }

  /** Unlike the body path, the header path is idempotent. */
  lemma HeaderCleanIdempotent(s: string)
    ensures HeaderClean(HeaderClean(s)) == HeaderClean(s)
  {
    HeaderCleanIdentity(HeaderClean(s));
  }

  /** After the HTML call, the header path (control stripping, then the
      header passes) is idempotent: a header value that went through it once
      comes back unchanged from a second pass. */
  lemma HeaderPathIdempotent(s: string)
    ensures HeaderClean(StripControl(HeaderClean(StripControl(s)))) == HeaderClean(StripControl(s))
  {
    StripControlIdentity(HeaderClean(StripControl(s)));
    HeaderCleanIdempotent(StripControl(s));
  }

  /** The header passes depend on `s` only through its collapsed breaks. */
  lemma HeaderCleanAfterBreaks(s: string, t: string)
    requires CollapseHeaderBreaks(s) == t && HeaderSafe(t)
    ensures HeaderClean(s) == t
  {
    CollapseSpacesIdentity(t);
    Text.TrimIdentity(t);
  }

  /** A string without adjacent whitespace is left as it is. */
  lemma {:induction false} CollapseSpacesIdentity(s: string)
    requires NoDoubleWhitespace(s)
    ensures CollapseSpaces(s) == s
    decreases |s|
  {
    if s != [] {
      CollapseSpacesIdentity(s[1..]);
    }
  }

  lemma {:induction false} DropHeaderBreaksAppend(a: string, b: string)
    requires a == [] || !IsHeaderBreak(a[|a| - 1])
    requires a != [] || b == [] || !IsHeaderBreak(b[0])
    ensures DropHeaderBreaks(a + b) == DropHeaderBreaks(a) + b
    decreases |a|
  {
    if a != [] && IsHeaderBreak(a[0]) {
      assert (a + b)[1..] == a[1..] + b;
      DropHeaderBreaksAppend(a[1..], b);
    }
  }

  lemma {:induction false} DropHeaderBreaksKeepsLast(a: string)
    requires a != [] && !IsHeaderBreak(a[|a| - 1])
    ensures var d := DropHeaderBreaks(a); d != [] && d[|d| - 1] == a[|a| - 1]
    decreases |a|
  {
    if IsHeaderBreak(a[0]) {
      DropHeaderBreaksKeepsLast(a[1..]);
    }
  }

  lemma {:induction false} DropAllHeaderBreaks(run: string, t: string)
    requires forall i :: 0 <= i < |run| ==> IsHeaderBreak(run[i])
    requires t == [] || !IsHeaderBreak(t[0])
    ensures DropHeaderBreaks(run + t) == t
    decreases |run|
  {
    if run == [] {
      assert run + t == t;
    } else {
      assert (run + t)[1..] == run[1..] + t;
      DropAllHeaderBreaks(run[1..], t);
    }
  }

  /** A whole run of CR, LF and TAB becomes one space. */
  lemma CollapseHeaderBreaksRun(run: string, t: string)
    requires run != []
    requires forall i :: 0 <= i < |run| ==> IsHeaderBreak(run[i])
    requires t == [] || !IsHeaderBreak(t[0])
    ensures CollapseHeaderBreaks(run + t) == [' '] + CollapseHeaderBreaks(t)
  {
    var s := run + t;
    assert s[0] == run[0] && s[1..] == run[1..] + t;
    assert IsHeaderBreak(s[0]);
    DropAllHeaderBreaks(run[1..], t);
    assert DropHeaderBreaks(s[1..]) == t;
  }

  /** The rewrite is local: a string cut right after a character that is no
      break is collapsed piece by piece. */
  lemma {:induction false} CollapseHeaderBreaksAppend(a: string, b: string)
    requires a == [] || !IsHeaderBreak(a[|a| - 1])
    ensures CollapseHeaderBreaks(a + b) == CollapseHeaderBreaks(a) + CollapseHeaderBreaks(b)
    decreases |a|
  {
    var s := a + b;
    if a == [] {
      assert s == b;
    } else if IsHeaderBreak(a[0]) {
      assert s[0] == a[0] && s[1..] == a[1..] + b;
      var tail := a[1..];
      assert |a| != 1;
      assert tail[|tail| - 1] == a[|a| - 1];
      DropHeaderBreaksAppend(tail, b);
      DropHeaderBreaksKeepsLast(tail);
      var d := DropHeaderBreaks(tail);
      CollapseHeaderBreaksAppend(d, b);
      assert CollapseHeaderBreaks(s) == [' '] + CollapseHeaderBreaks(d + b);
      assert CollapseHeaderBreaks(a) == [' '] + CollapseHeaderBreaks(d);
      AppendAssoc([' '], CollapseHeaderBreaks(d), CollapseHeaderBreaks(b));
    } else {
      assert s[0] == a[0] && s[1..] == a[1..] + b;
      CollapseHeaderBreaksAppend(a[1..], b);
      assert CollapseHeaderBreaks(s) == [a[0]] + CollapseHeaderBreaks(a[1..] + b);
      AppendAssoc([a[0]], CollapseHeaderBreaks(a[1..]), CollapseHeaderBreaks(b));
    }
  }

  // ---------------------------------------------------------------------
  // Body fields

  /** The number of CRLF pairs in `s` (they cannot overlap). */
  function CrlfCount(s: string): nat
    decreases |s|
  {
    if |s| < 2 then 0
    else (if s[0] == '\r' && s[1] == '\n' then 1 else 0) + CrlfCount(s[1..])
  }

  /** `replace(/\r\n/g, '\n')`: the carriage return of each CRLF pair goes,
      every other character (a lone CR, a lone LF) stays. */
  function NormalizeCrlf(s: string): (r: string)
    decreases |s|
  {
    if s == [] then []
    else if |s| >= 2 && s[0] == '\r' && s[1] == '\n' then
      "\n" + NormalizeCrlf(s[2..])
    else
      [s[0]] + NormalizeCrlf(s[1..])
  }

  /** Each CRLF pair loses one character. */
  lemma {:induction false} NormalizeCrlfLength(s: string)
    ensures |NormalizeCrlf(s)| == |s| - CrlfCount(s)
    decreases |s|
  {
    if |s| >= 2 && s[0] == '\r' && s[1] == '\n' {
      NormalizeCrlfLength(s[2..]);
      CrlfCountAfterLf(s[1..]);
      assert s[1..][1..] == s[2..];
    } else if s != [] {
      NormalizeCrlfLength(s[1..]);
    }
  }

  /** The CRLF rewrite adds no control character. */
  lemma {:induction false} NormalizeCrlfKeepsClean(s: string)
    ensures NoControl(s) ==> NoControl(NormalizeCrlf(s))
    decreases |s|
  {
    if s != [] && NoControl(s) {
      var crlf := |s| >= 2 && s[0] == '\r' && s[1] == '\n';
      var rest := if crlf then s[2..] else s[1..];
      DropKeeps(s, if crlf then 2 else 1);
      NormalizeCrlfKeepsClean(rest);
      var head := if crlf then '\n' else s[0];
      assert NormalizeCrlf(s) == [head] + NormalizeCrlf(rest);
      PrependKeeps(head, NormalizeCrlf(rest));
    }
  }

  /** Only carriage returns go: every other character is kept as often as it
      occurs. */
  lemma {:induction false} NormalizeCrlfKeepsOthers(s: string, c: char)
    requires c != '\r'
    ensures multiset(NormalizeCrlf(s))[c] == multiset(s)[c]
    decreases |s|
  {
    if |s| >= 2 && s[0] == '\r' && s[1] == '\n' {
      var t := s[2..];
      NormalizeCrlfKeepsOthers(t, c);
      Text.FirstCount(s, c);
      Text.FirstCount(s[1..], c);
      assert s[1..][1..] == t;
      assert NormalizeCrlf(s) == ['\n'] + NormalizeCrlf(t);
      Text.PrependCount('\n', NormalizeCrlf(t), c);
    } else if s != [] {
      var t := s[1..];
      NormalizeCrlfKeepsOthers(t, c);
      Text.FirstCount(s, c);
      assert NormalizeCrlf(s) == [s[0]] + NormalizeCrlf(t);
      Text.PrependCount(s[0], NormalizeCrlf(t), c);
    }
  }

  /** Exactly one CR goes per CRLF pair. */
  lemma {:induction false} NormalizeCrlfDropsCr(s: string)
    ensures multiset(NormalizeCrlf(s))['\r'] + CrlfCount(s) == multiset(s)['\r']
    decreases |s|
  {
    if |s| >= 2 && s[0] == '\r' && s[1] == '\n' {
      var t := s[2..];
      NormalizeCrlfDropsCr(t);
      CrlfCountAfterLf(s[1..]);
      Text.FirstCount(s, '\r');
      Text.FirstCount(s[1..], '\r');
      assert s[1..][1..] == t;
      assert NormalizeCrlf(s) == ['\n'] + NormalizeCrlf(t);
      Text.PrependCount('\n', NormalizeCrlf(t), '\r');
    } else if s != [] {
      var t := s[1..];
      NormalizeCrlfDropsCr(t);
      Text.FirstCount(s, '\r');
      assert NormalizeCrlf(s) == [s[0]] + NormalizeCrlf(t);
      Text.PrependCount(s[0], NormalizeCrlf(t), '\r');
    }
  }

  lemma CrlfCountAfterLf(s: string)
    requires s != [] && s[0] == '\n'
    ensures CrlfCount(s) == CrlfCount(s[1..])
  {
  }

  /** A string with no CRLF pair is left alone, and only such a string is. */
  lemma {:induction false} NormalizeCrlfIdentity(s: string)
    ensures NormalizeCrlf(s) == s <==> CrlfCount(s) == 0
    decreases |s|
  {
    NormalizeCrlfLength(s);
    if s != [] && CrlfCount(s) == 0 {
      NormalizeCrlfIdentity(s[1..]);
    }
  }

  /** A string without CR is left as it is. */
  lemma {:induction false} NoCarriageReturnKept(s: string)
    requires '\r' !in s
    ensures NormalizeCrlf(s) == s
    decreases |s|
  {
    if s != [] {
      assert '\r' !in s[1..];
      NoCarriageReturnKept(s[1..]);
    }
  }

  /** The rewrite is local: a string cut anywhere but between the CR and
      the LF of a pair is normalised piece by piece. */
  lemma {:induction false} NormalizeCrlfAppend(a: string, b: string)
    requires a == [] || a[|a| - 1] != '\r' || b == [] || b[0] != '\n'
    ensures NormalizeCrlf(a + b) == NormalizeCrlf(a) + NormalizeCrlf(b)
    decreases |a|
  {
    if a == [] {
      assert a + b == b;
    } else {
      var crlf := |a| >= 2 && a[0] == '\r' && a[1] == '\n';
      var n := if crlf then 2 else 1;
      var head := if crlf then "\n" else [a[0]];
      assert (a + b)[n..] == a[n..] + b;
      assert a[n..] == [] || a[n..][|a[n..]| - 1] == a[|a| - 1];
      NormalizeCrlfAppend(a[n..], b);
      assert NormalizeCrlf(a) == head + NormalizeCrlf(a[n..]);
      assert NormalizeCrlf(a + b) == head + NormalizeCrlf(a[n..] + b) by {
        assert (a + b)[0] == a[0];
        assert |a| >= 2 ==> (a + b)[1] == a[1];
        assert |a| == 1 && |b| >= 1 ==> (a + b)[1] == b[0];
      }
      AppendAssoc(head, NormalizeCrlf(a[n..]), NormalizeCrlf(b));
    }
  }

  /** In a run of CRs before an LF only the last CR pairs with the LF: the
      LF stays after the other CRs, which are kept in place. */
  lemma {:induction false} CrRunBeforeLf(k: nat)
    requires k >= 1
    ensures NormalizeCrlf(seq(k, _ => '\r') + "\n") == seq(k - 1, _ => '\r') + "\n"
    decreases k
  {
    var s := seq(k, _ => '\r') + "\n";
    if k == 1 {
      assert s == "\r\n";
      assert s[0] == '\r' && s[1] == '\n' && s[2..] == [];
      assert seq(0, _ => '\r') + "\n" == "\n";
    } else {
      var tail := seq(k - 1, _ => '\r') + "\n";
      assert s == "\r" + tail;
      assert tail[0] == '\r';
      NormalizeCrlfAppend("\r", tail);
      CrRunBeforeLf(k - 1);
      assert NormalizeCrlf("\r") == "\r" by {
        NoCrlfKeptOne('\r');
      }
      assert seq(k - 1, _ => '\r') + "\n" == "\r" + (seq(k - 2, _ => '\r') + "\n");
    }
  }

  lemma NoCrlfKeptOne(c: char)
    ensures NormalizeCrlf([c]) == [c]
  {
  }

  /** The body path is not idempotent: "\r\r\n" becomes "\r\n", which a
      second pass turns into "\n". */
  lemma BodyPathNotIdempotent()
    ensures NormalizeCrlf(StripControl("\r\r\n")) == "\r\n"
    ensures NormalizeCrlf(StripControl("\r\n")) == "\n"
  {
    StripCrCrLf();
    StripCrLf();
    NormalizeCrLf();
    NormalizeCrCrLf();
  }

  lemma StripCrCrLf()
    ensures StripControl("\r\r\n") == "\r\r\n"
  {
    StripControlIdentity("\r\r\n");
  }

  lemma StripCrLf()
    ensures StripControl("\r\n") == "\r\n"
  {
    StripControlIdentity("\r\n");
  }

  lemma NormalizeCrLf()
    ensures NormalizeCrlf("\r\n") == "\n"
  {
    assert "\r\n"[2..] == "";
  }

  lemma NormalizeCrCrLf()
    ensures NormalizeCrlf("\r\r\n") == "\r\n"
  {
    assert "\r\r\n"[1..] == "\r\n";
    NormalizeCrLf();
    assert "\r\n" == ['\r'] + "\n";
  }

  // ---------------------------------------------------------------------
  // Field names

  /** `headers.some(h => lowerField === h.toLowerCase() || lowerField.includes(h.toLowerCase()))`. */
  function AnyHeaderMatches(lowerField: string, headers: seq<string>): (r: bool)
    ensures r <==> exists i :: 0 <= i < |headers| && Text.Contains(lowerField, Text.ToLower(headers[i]))
  {
    if headers == [] then false
    else
      var header := Text.ToLower(headers[0]);
      var fullMatch := lowerField == header;
      var partMatch := Text.Contains(lowerField, header);
      if fullMatch || partMatch then
        (if fullMatch then Text.ContainsSelf(lowerField); true else true)
      else
        var rest := AnyHeaderMatches(lowerField, headers[1..]);
        assert forall i :: 1 <= i < |headers| ==> headers[1..][i - 1] == headers[i];
        rest
  }

  /** `isHeaderField(fieldName)`: false for an empty name; otherwise true
      exactly when the lower-cased name contains some lower-cased configured
      header name (an exact match being one case of that). */
  function IsHeaderField(config: SanitizeConfig, fieldName: string): (r: bool)
    ensures fieldName == "" ==> !r
    ensures r <==> fieldName != "" && config.headerFields.Some?
                   && (exists i :: 0 <= i < |config.headerFields.value|
                         && Text.Contains(Text.ToLower(fieldName), Text.ToLower(config.headerFields.value[i])))
  {
    if fieldName == "" then false
    else
      match config.headerFields
      case None => false
      case Some(headers) => AnyHeaderMatches(Text.ToLower(fieldName), headers)
  }

  // ---------------------------------------------------------------------
  // Strings and values

  /** `sanitizeString(str, fieldName)`: HTML sanitiser, control stripping,
      then the header passes for a header-bound field or CRLF normalisation
      otherwise. */
  function SanitizedString(config: SanitizeConfig, html: HtmlSanitizer, str: string, fieldName: string): string {
    var cleaned := StripControl(html(str, HtmlOptionsOf(config)));
    if IsHeaderField(config, fieldName) then HeaderClean(cleaned) else NormalizeCrlf(cleaned)
  }

  /** Whatever the sanitiser returns, the result holds no control character;
      a header-bound field's result is also a single trimmed line without
      whitespace runs, and any other field keeps its line breaks with CRLF
      turned into LF. */
  lemma SanitizedStringSpec(config: SanitizeConfig, html: HtmlSanitizer, str: string, fieldName: string)
    ensures var r := SanitizedString(config, html, str, fieldName);
      && NoControl(r)
      && (IsHeaderField(config, fieldName) ==>
            HeaderSafe(r) && r == HeaderClean(StripControl(html(str, HtmlOptionsOf(config)))))
      && (!IsHeaderField(config, fieldName) ==>
            r == NormalizeCrlf(StripControl(html(str, HtmlOptionsOf(config)))))
  {
    NormalizeCrlfKeepsClean(StripControl(html(str, HtmlOptionsOf(config))));
  }

  /** Same variant at every position, same array lengths, same key sets;
      scalars other than strings identical. */
  predicate SameShape(v: Value, w: Value)
    decreases v
  {
    match v
    case Arr(xs) =>
      w.Arr? && |w.items| == |xs| && forall i :: 0 <= i < |xs| ==> SameShape(xs[i], w.items[i])
    case Obj(m) =>
      w.Obj? && w.fields.Keys == m.Keys && forall k :: k in m ==> SameShape(m[k], w.fields[k])
    case Str(_) => w.Str?
    case _ => w == v
  }

  /** No string anywhere in the value holds a control character. */
  predicate CleanStrings(v: Value)
    decreases v
  {
    match v
    case Str(s) => NoControl(s)
    case Arr(xs) => forall i :: 0 <= i < |xs| ==> CleanStrings(xs[i])
    case Obj(m) => forall k :: k in m ==> CleanStrings(m[k])
    case _ => true
  }

  /** `transform(value)`: arrays element by element, objects value by value
      under the same keys, strings through `sanitizeString(s, '')`, every
      other scalar as it is. */
  function Sanitized(config: SanitizeConfig, html: HtmlSanitizer, v: Value): Value
    decreases v
  {
    match v
    case Str(s) => Str(SanitizedString(config, html, s, ""))
    case Arr(xs) => Arr(seq(|xs|, i requires 0 <= i < |xs| => Sanitized(config, html, xs[i])))
    case Obj(m) => Obj(map k | k in m :: Sanitized(config, html, m[k]))
    case _ => v
  }

  /** `transform` keeps the shape of its input (variants, array lengths, key
      sets, non-string scalars) and leaves no control character in any
      string. */
  lemma {:induction false} SanitizedSpec(config: SanitizeConfig, html: HtmlSanitizer, v: Value)
    ensures SameShape(v, Sanitized(config, html, v))
    ensures CleanStrings(Sanitized(config, html, v))
    decreases v
  {
    var r := Sanitized(config, html, v);
    match v
    case Str(s) =>
      SanitizedStringSpec(config, html, s, "");
    case Arr(xs) =>
      forall i | 0 <= i < |xs|
        ensures SameShape(xs[i], r.items[i]) && CleanStrings(r.items[i])
      {
        SanitizedSpec(config, html, xs[i]);
      }
    case Obj(m) =>
      forall k | k in m
        ensures SameShape(m[k], r.fields[k]) && CleanStrings(r.fields[k])
      {
        SanitizedSpec(config, html, m[k]);
      }
    case _ =>
  }

  /** `w` is `v` with every string, at any depth, put through the body path
      only: HTML sanitizer, control characters stripped, line breaks
      normalised, and no header folding. */
  predicate BodyPathEverywhere(config: SanitizeConfig, html: HtmlSanitizer, v: Value, w: Value)
    decreases v
  {
    match v
    case Str(s) => w == Str(NormalizeCrlf(StripControl(html(s, HtmlOptionsOf(config)))))
    case Arr(xs) =>
      w.Arr? && |w.items| == |xs|
      && forall i :: 0 <= i < |xs| ==> BodyPathEverywhere(config, html, xs[i], w.items[i])
    case Obj(m) =>
      w.Obj? && w.fields.Keys == m.Keys
      && forall k :: k in m ==> BodyPathEverywhere(config, html, m[k], w.fields[k])
    case _ => w == v
  }

  /** Through `transform` no string is ever header-bound: every string, at
      any depth, takes the body path, whatever the configured header names. */
  lemma {:induction false} TransformNeverHeaderBound(config: SanitizeConfig, html: HtmlSanitizer, v: Value)
    ensures BodyPathEverywhere(config, html, v, Sanitized(config, html, v))
    decreases v
  {
    var r := Sanitized(config, html, v);
    match v
    case Str(s) =>
      SanitizedStringSpec(config, html, s, "");
    case Arr(xs) =>
      forall i | 0 <= i < |xs|
        ensures BodyPathEverywhere(config, html, xs[i], r.items[i])
      {
        TransformNeverHeaderBound(config, html, xs[i]);
      }
    case Obj(m) =>
      forall k | k in m
        ensures BodyPathEverywhere(config, html, m[k], r.fields[k])
      {
        TransformNeverHeaderBound(config, html, m[k]);
      }
    case _ =>
  }
}
