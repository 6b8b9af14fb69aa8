/** `SanitizePipe` and its factory as the source writes them: an object with a
    fixed configuration whose methods walk the value, building each object's
    result key by key and each string pass by pass. Every method is proved to
    compute the corresponding function of module `Sanitize`. */
module SanitizePipes {
  import opened Wrappers
  import opened Sanitize

  class SanitizePipe {
    const config: SanitizeConfig
    /** The `sanitize-html` library the pipe calls. */
    const html: HtmlSanitizer

    constructor (partial: Option<PartialConfig>, html: HtmlSanitizer)
      ensures config == ResolveConfig(partial) && this.html == html
    {
      this.config := ResolveConfig(partial);
      this.html := html;
    }

    method Transform(value: Value) returns (r: Value)
      ensures r == Sanitized(config, html, value)
      decreases value, 1
    {
      match value
      case Arr(items) =>
        var out := SanitizeArray(items);
        r := Arr(out);
      case Obj(fields) =>
        var out := SanitizeObject(fields);
        r := Obj(out);
      case _ => r := SanitizePrimitive(value);
    }

    method SanitizePrimitive(value: Value) returns (r: Value)
      requires !value.Arr? && !value.Obj?
      ensures r == Sanitized(config, html, value)
    {
      if value.Str? {
        var s := SanitizeString(value.s, "");
        r := Str(s);
      } else {
        r := value;
      }
    }

    /** `arr.map(...)`: null and undefined items as they are, every other item
        through the matching method. */
    method SanitizeArray(arr: seq<Value>) returns (r: seq<Value>)
      ensures Arr(r) == Sanitized(config, html, Arr(arr))
      decreases Arr(arr), 0
    {
      var out: seq<Value> := [];
      for i := 0 to |arr|
        invariant |out| == i
        invariant forall j :: 0 <= j < i ==> out[j] == Sanitized(config, html, arr[j])
      {
        var item := arr[i];
        var x: Value;
        if item.Null? || item.Undefined? {
          x := item;
        } else if item.Arr? {
          var xs := SanitizeArray(item.items);
          x := Arr(xs);
        } else if item.Obj? {
          var m := SanitizeObject(item.fields);
          x := Obj(m);
        } else {
          x := SanitizePrimitive(item);
        }
        out := out + [x];
      }
      r := out;
    }

    /** Fills a fresh `result` entry by entry; null and undefined values are
        copied, nested arrays and objects recurse, the rest goes through
        `SanitizePrimitive`. */
    method SanitizeObject(obj: map<string, Value>) returns (r: map<string, Value>)
      ensures Obj(r) == Sanitized(config, html, Obj(obj))
      decreases Obj(obj), 0
    {
      var result: map<string, Value> := map[];
      var pending := obj.Keys;
      while pending != {}
        invariant pending <= obj.Keys
        invariant result.Keys == obj.Keys - pending
        invariant forall k :: k in result ==> result[k] == Sanitized(config, html, obj[k])
        decreases pending
      {
        var key :| key in pending;
        var value := obj[key];
        var x: Value;
        if value.Null? || value.Undefined? {
          x := value;
        } else if value.Arr? {
          var xs := SanitizeArray(value.items);
          x := Arr(xs);
        } else if value.Obj? {
          var m := SanitizeObject(value.fields);
          x := Obj(m);
        } else {
          x := SanitizePrimitive(value);
        }
        result := result[key := x];
        pending := pending - {key};
      }
      assert result == map k | k in obj :: Sanitized(config, html, obj[k]);
      r := result;
    }

    method SanitizeString(str: string, fieldName: string) returns (r: string)
      ensures r == SanitizedString(config, html, str, fieldName)
    {
      var cleaned := html(str, HtmlOptionsOf(config));
      cleaned := StripControlCharacters(cleaned);
      if IsHeaderField(config, fieldName) {
        cleaned := HeaderClean(cleaned);
      } else {
        cleaned := NormalizeCrlf(cleaned);
      }
      r := cleaned;
    }

    /** The per-character replace: each control character maps to nothing,
        every other character to itself. */
    static method StripControlCharacters(s: string) returns (r: string)
      ensures r == StripControl(s)
    {
      r := "";
      for i := 0 to |s|
        invariant r == StripControl(s[..i])
      {
        assert s[..i + 1][..i] == s[..i];
        if !IsControl(s[i]) {
          r := r + [s[i]];
        }
      }
      assert s[..|s|] == s;
    }
  }

  class SanitizePipeFactory {
    constructor () {}

    method Create(partial: Option<PartialConfig>, html: HtmlSanitizer) returns (pipe: SanitizePipe)
      ensures fresh(pipe)
      ensures pipe.config == ResolveConfig(partial) && pipe.html == html
    {
      pipe := new SanitizePipe(partial, html);
    }
  }
}
