/**
 * The shared resolution of the Emlak API base address
 * (chrome-extension/emlakConfig.js): trim, fall back to the default when
 * nothing was given, and drop one trailing slash.
 */
module EmlakConfig {
  import opened JsText

  const DefaultBaseUrl := "http://localhost:8084"

  /** `s.replace(/\/$/, '')`: removes one '/' at the very end, if there is one. */
  function StripTrailingSlash(s: string): (r: string)
    ensures EndsWith(s, "/") ==> r + "/" == s
    ensures !EndsWith(s, "/") ==> r == s
  {
    if s != [] && s[|s| - 1] == '/' then s[..|s| - 1] else s
  }

  /** `resolveEmlakBaseUrl(value)`; an absent value is the empty string (both are falsy). */
  function ResolveBaseUrl(value: string): (r: string)
    ensures var t := Trim(if value == "" then DefaultBaseUrl else value);
      && (|r| == |t| || |r| + 1 == |t|)
      && r == t[..|r|]
      && (EndsWith(t, "/") <==> |r| + 1 == |t|)
  {
    StripTrailingSlash(Trim(if value == "" then DefaultBaseUrl else value))
  }

  /** Nothing given, or the default itself, resolves to exactly the default. */
  lemma ResolveDefault()
    ensures ResolveBaseUrl("") == DefaultBaseUrl
    ensures ResolveBaseUrl(DefaultBaseUrl) == DefaultBaseUrl
  {
    var d := DefaultBaseUrl;
    assert d[0] == 'h' && d[|d| - 1] == '4';
    ResolveClean(d);
  }

  /** Only one slash goes: "a//" resolves to "a/". */
  lemma ResolveStripsOneSlash()
    ensures ResolveBaseUrl("http://h//") == "http://h/"
  {
    var s := "http://h//";
    assert s[0] == 'h' && s[|s| - 1] == '/';
    assert s[..|s| - 1] == "http://h/";
    TrimNoop(s);
  }

  /** A given value without surrounding white space or trailing slash is kept as is. */
  lemma ResolveClean(value: string)
    requires value != [] && Trimmed(value) && value[|value| - 1] != '/'
    ensures ResolveBaseUrl(value) == value
  {
    TrimNoop(value);
  }

  /** White space around a non-blank value does not matter, whatever it is. */
  lemma ResolveIgnoresSurroundingSpace(left: string, value: string, right: string)
    requires IsBlank(left) && IsBlank(right) && !IsBlank(value)
    ensures ResolveBaseUrl(left + value + right) == ResolveBaseUrl(value)
  {
    assert left + value + right == left + (value + right);
    TrimPrependSpace(left, value + right);
    TrimAppendSpace(value, right);
  }

  /** A value made only of white space is truthy, so it does not fall back to the
      default: it resolves to the empty string. */
  lemma ResolveBlankIsEmpty()
    ensures ResolveBaseUrl("   ") == ""
  {
    assert IsBlank("   ");
  }

  // Helpers about trimming a value padded with white space.

  lemma {:induction false} TrimAppendSpace(s: string, pad: string)
    requires !IsBlank(s) && IsBlank(pad)
    ensures Trim(s + pad) == Trim(s)
  {
    if IsSpace(s[0]) {
      assert (s + pad)[1..] == s[1..] + pad;
      assert !IsBlank(s[1..]) by {
        var k :| 0 <= k < |s| && !IsSpace(s[k]);
        assert s[1..][k - 1] == s[k];
      }
      TrimAppendSpace(s[1..], pad);
    } else {
      TrimEndAppendSpace(s, pad);
    }
  }

  lemma {:induction false} TrimPrependSpace(pad: string, s: string)
    requires IsBlank(pad)
    ensures Trim(pad + s) == Trim(s)
    decreases |pad|
  {
    if pad != [] {
      assert (pad + s)[0] == pad[0] && (pad + s)[1..] == pad[1..] + s;
      assert IsBlank(pad[1..]) by {
        assert forall k :: 0 <= k < |pad| - 1 ==> pad[1..][k] == pad[k + 1];
      }
      TrimPrependSpace(pad[1..], s);
    } else {
      assert pad + s == s;
    }
  }

  lemma {:induction false} TrimEndAppendSpace(s: string, pad: string)
    requires IsBlank(pad)
    ensures TrimEnd(s + pad) == TrimEnd(s)
    decreases |pad|
  {
    if pad != [] {
      assert (s + pad)[..|s + pad| - 1] == s + pad[..|pad| - 1];
      TrimEndAppendSpace(s, pad[..|pad| - 1]);
    } else {
      assert s + pad == s;
    }
  }
}
