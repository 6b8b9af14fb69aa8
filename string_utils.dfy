/** `StringUtils`: total string helpers with clamping rules. A `null` or
    `undefined` argument is `None`. */
module StringUtils {
  import opened Wrappers
  import Text

  function Max(a: int, b: int): int { if a < b then b else a }
  function Min(a: int, b: int): int { if a < b then a else b }

  /** `safeSubstring(value, start, end?)`: the part of `value` between the
      start clamped at 0 and the end clamped at the length (the whole rest
      when `end` is omitted); empty when those cross. Never out of bounds. */
  function SafeSubstring(value: Option<string>, start: int, end: Option<int>): (r: string)
    ensures value.None? || value == Some("") ==> r == ""
    ensures value.Some? ==>
      var lo := Max(0, start);
      var hi := if end.Some? then Min(|value.value|, end.value) else |value.value|;
      && |r| == Max(0, hi - lo) <= |value.value|
      && forall i :: 0 <= i < |r| ==> r[i] == value.value[lo + i]
  {
    match value
    case None => ""
    case Some(v) =>
      if v == "" then ""
      else
        var safeStart := Max(0, start);
        var safeEnd := if end.Some? then Min(|v|, end.value) else |v|;
        if safeStart >= safeEnd then "" else v[safeStart..safeEnd]
  }

  /** With `end` omitted and a start at or before 0 the whole string comes back. */
  lemma SafeSubstringWhole(v: string, start: int)
    requires start <= 0
    ensures SafeSubstring(Some(v), start, None) == v
  {
  }

  /** Adjacent safe substrings concatenate to the safe substring spanning both. */
  lemma SafeSubstringSplit(v: string, a: int, b: int, c: int)
    requires 0 <= a <= b <= c
    ensures SafeSubstring(Some(v), a, Some(b)) + SafeSubstring(Some(v), b, Some(c))
            == SafeSubstring(Some(v), a, Some(c))
  {
    var x, y, z := SafeSubstring(Some(v), a, Some(b)), SafeSubstring(Some(v), b, Some(c)),
                   SafeSubstring(Some(v), a, Some(c));
    assert |x + y| == |z|;
    forall i | 0 <= i < |z| ensures (x + y)[i] == z[i] {
      if i < |x| {
        assert (x + y)[i] == x[i];
      } else {
        assert (x + y)[i] == y[i - |x|];
      }
    }
  }

  datatype TruncateOptions = TruncateOptions(maxLength: Option<int>, suffix: Option<string>)

  const DefaultMaxLength: int := 50
  const DefaultSuffix: string := "..."

  /** The `maxLength` in effect: the default unless the option is given. */
  function MaxLengthOf(options: Option<TruncateOptions>): int {
    if options.Some? then options.value.maxLength.GetOr(DefaultMaxLength) else DefaultMaxLength
  }

  /** The `suffix` in effect: the default unless the option is given. */
  function SuffixOf(options: Option<TruncateOptions>): string {
    if options.Some? then options.value.suffix.GetOr(DefaultSuffix) else DefaultSuffix
  }

  /** `truncate(value, options?)`. An absent or empty value gives `""`; a value
      within the limit comes back unchanged (not trimmed); a longer one is
      trimmed, cut to at most `maxLength` characters, and always gets the
      suffix, even when trimming alone would have been enough. */
  function Truncate(value: Option<string>, options: Option<TruncateOptions>): (r: string)
    ensures value.None? || value == Some("") ==> r == ""
    ensures value.Some? && |value.value| <= MaxLengthOf(options) ==> r == value.value
    ensures value.Some? && value.value != "" && |value.value| > MaxLengthOf(options) ==>
      var suffix := SuffixOf(options);
      && |suffix| <= |r|
      && r[|r| - |suffix|..] == suffix
      && Text.IsPrefix(r[..|r| - |suffix|], Text.Trim(value.value))
      && |r| - |suffix| == Max(0, Min(|Text.Trim(value.value)|, MaxLengthOf(options)))
    ensures MaxLengthOf(options) >= 0 ==> |r| <= MaxLengthOf(options) + |SuffixOf(options)|
  {
    match value
    case None => ""
    case Some(v) =>
      if v == "" then ""
      else
        var maxLength := MaxLengthOf(options);
        var suffix := SuffixOf(options);
        if |v| <= maxLength then v
        else
          var head := SafeSubstring(Some(Text.Trim(v)), 0, Some(maxLength));
          assert head == Text.Trim(v)[..|head|];
          var r := head + suffix;
          assert r[..|r| - |suffix|] == head;
          r
  }
}
