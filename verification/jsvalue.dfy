/** The values fast-xml-parser hands to workers/feed-aggregator-worker/src/index.ts
    and the worker's readers of them: JavaScript truthiness, `toArray`, `readText`
    and `readLink`. Numbers are the integers the parser reads from numeric text. */
module JsValue {
  import opened Wrappers
  import opened Text

  datatype Js =
    | Undefined
    | Null
    | Bool(b: bool)
    | Num(n: int)
    | Str(s: string)
    | Arr(items: seq<Js>)
    | Obj(fields: map<string, Js>)

  /** JavaScript truthiness: `undefined`, `null`, `false`, `0` and `""` are falsy. */
  predicate Truthy(v: Js) {
    match v
    case Undefined => false
    case Null => false
    case Bool(b) => b
    case Num(n) => n != 0
    case Str(s) => s != ""
    case Arr(_) => true
    case Obj(_) => true
  }

  /** `value?.key`: a field of an object; `undefined` for anything else. */
  function Get(v: Js, key: string): Js {
    if v.Obj? && key in v.fields then v.fields[key] else Undefined
  }

  /** `a ?? b`. */
  function Nullish(a: Js, b: Js): (r: Js)
    ensures r == a || r == b
    ensures !a.Undefined? && !a.Null? ==> r == a
  {
    if a.Undefined? || a.Null? then b else a
  }

  /** `String(n)` for an integer. */
  function NumText(n: int): (r: string)
    ensures r != "" && IsTrimmed(r, IsJsSpace)
  {
    if n >= 0 then Decimal(n) else "-" + Decimal(-n)
  }

  /** `toArray`: nothing for a falsy value, an array as it is, anything else alone. */
  function ToArray(v: Js): (r: seq<Js>)
    ensures !Truthy(v) ==> r == []
    ensures v.Arr? ==> r == v.items
    ensures Truthy(v) && !v.Arr? ==> r == [v]
  {
    if !Truthy(v) then [] else if v.Arr? then v.items else [v]
  }

  /** Reading the result back as an array changes nothing. */
  lemma ToArrayIdempotent(v: Js)
    ensures ToArray(Arr(ToArray(v))) == ToArray(v)
  {
  }

  /** `text.trim() || undefined`. */
  function TrimmedText(s: string): (r: Option<string>)
    ensures r.Some? ==> r.value != "" && IsTrimmed(r.value, IsJsSpace)
    ensures r.None? <==> forall i :: 0 <= i < |s| ==> IsJsSpace(s[i])
  {
    TrimEmptyIffBlank(s, IsJsSpace);
    var t := Trim(s, IsJsSpace);
    if t == "" then None else Some(t)
  }

  /** A text field of an object, if it holds a string. */
  predicate HasString(v: Js, key: string) {
    Get(v, key).Str?
  }

  /** `readText`: a string or number, trimmed; the first readable element of an
      array; an object's `text`, `cdata` or `#text` string, the first of them that
      is present; never an empty string. */
  function ReadText(v: Js): (r: Option<string>)
    ensures r.Some? ==> r.value != "" && IsTrimmed(r.value, IsJsSpace)
    decreases v, 1
  {
    match v
    case Str(s) => TrimmedText(s)
    case Num(n) => TrimmedText(NumText(n))
    case Arr(items) => FirstText(items, 0)
    case Obj(_) =>
      if HasString(v, "text") then TrimmedText(Get(v, "text").s)
      else if HasString(v, "cdata") then TrimmedText(Get(v, "cdata").s)
      else if HasString(v, "#text") then TrimmedText(Get(v, "#text").s)
      else None
    case _ => None
  }

  /** The loop of `readText` over an array, from element `i`. */
  function FirstText(items: seq<Js>, i: nat): (r: Option<string>)
    requires i <= |items|
    ensures r.Some? ==> r.value != "" && IsTrimmed(r.value, IsJsSpace)
    decreases items, |items| - i
  {
    if i == |items| then None
    else if ReadText(items[i]).Some? then ReadText(items[i])
    else FirstText(items, i + 1)
  }

  /** The array loop returns the first element that reads as text, and nothing when
      no element does. */
  lemma {:induction false} FirstTextIsFirst(items: seq<Js>, i: nat)
    requires i <= |items|
    ensures FirstText(items, i).None? <==> forall j :: i <= j < |items| ==> ReadText(items[j]).None?
    ensures FirstText(items, i).Some? ==>
      (exists j :: i <= j < |items| && FirstText(items, i) == ReadText(items[j])
         && forall m :: i <= m < j ==> ReadText(items[m]).None?)
    decreases |items| - i
  {
    if i < |items| {
      if ReadText(items[i]).Some? {
        assert FirstText(items, i) == ReadText(items[i]);
      } else {
        FirstTextIsFirst(items, i + 1);
        assert FirstText(items, i) == FirstText(items, i + 1);
        if FirstText(items, i).Some? {
          var j :| i + 1 <= j < |items| && FirstText(items, i + 1) == ReadText(items[j])
            && forall m :: i + 1 <= m < j ==> ReadText(items[m]).None?;
          assert forall m :: i <= m < j ==> ReadText(items[m]).None?;
        }
      }
    }
  }

  /** A string reads as its trimmed text exactly when it is not blank. */
  lemma ReadTextOfString(s: string)
    ensures ReadText(Str(s)).Some? <==> exists i :: 0 <= i < |s| && !IsJsSpace(s[i])
    ensures ReadText(Str(s)).Some? ==> ReadText(Str(s)).value == Trim(s, IsJsSpace)
  {
  }

  /** The first element `rel="alternate"` of an array, by position. */
  function FindAlternate(items: seq<Js>, i: nat): (r: Option<nat>)
    requires i <= |items|
    ensures r.Some? ==> i <= r.value < |items| && IsAlternate(items[r.value])
    ensures r.None? ==> forall j :: i <= j < |items| ==> !IsAlternate(items[j])
    ensures r.Some? ==> forall j :: i <= j < r.value ==> !IsAlternate(items[j])
    decreases |items| - i
  {
    if i == |items| then None
    else if IsAlternate(items[i]) then Some(i)
    else FindAlternate(items, i + 1)
  }

  /** `entry?.rel === "alternate"`. */
  predicate IsAlternate(v: Js) {
    Get(v, "rel") == Str("alternate")
  }

  /** `readLink`: a trimmed string; in an array the first `rel="alternate"` element,
      else the first element; an object's `href`, `url` or `text` string, the first
      of them that is present; never an empty string. */
  function ReadLink(v: Js): (r: Option<string>)
    ensures r.Some? ==> r.value != "" && IsTrimmed(r.value, IsJsSpace)
    decreases v
  {
    if !Truthy(v) then None
    else
      match v
      case Str(s) => TrimmedText(s)
      case Arr(items) =>
        var found := FindAlternate(items, 0);
        if found.Some? then ReadLink(items[found.value])
        else if |items| == 0 then None
        else ReadLink(items[0])
      case Obj(_) =>
        if HasString(v, "href") then TrimmedText(Get(v, "href").s)
        else if HasString(v, "url") then TrimmedText(Get(v, "url").s)
        else if HasString(v, "text") then TrimmedText(Get(v, "text").s)
        else None
      case _ => None
  }

  /** An array's link is the first alternate element's link, else the first
      element's. */
  lemma ReadLinkPrefersAlternate(items: seq<Js>, k: nat)
    requires k < |items| && IsAlternate(items[k])
    requires forall j :: 0 <= j < k ==> !IsAlternate(items[j])
    ensures ReadLink(Arr(items)) == ReadLink(items[k])
  {
    var found := FindAlternate(items, 0);
    assert found.Some?;
    assert found.value == k;
  }

  lemma ReadLinkWithoutAlternate(items: seq<Js>)
    requires |items| > 0
    requires forall j :: 0 <= j < |items| ==> !IsAlternate(items[j])
    ensures ReadLink(Arr(items)) == ReadLink(items[0])
  {
  }
}
