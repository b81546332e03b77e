/**
 * Header bags as the cache sees them: an ordered list of name/value pairs,
 * looked up by name without regard to case, plus the directive list of a
 * `Cache-Control` value.
 */
module HttpHeaders {
  import opened Wrappers
  import opened Text

  datatype Header = Header(name: string, value: string)

  type Headers = seq<Header>

  const CACHE_CONTROL: string := "Cache-Control"
  const DATE: string := "Date"
  const EXPIRES: string := "Expires"
  const ETAG: string := "ETag"
  const LAST_MODIFIED: string := "Last-Modified"
  const IF_NONE_MATCH: string := "If-None-Match"
  const IF_MODIFIED_SINCE: string := "If-Modified-Since"
  const X_BEST_BEFORE: string := "X-Best-Before"
  const X_AMZ_META_BEST_BEFORE: string := "X-Amz-Meta-Best-Before"
  const X_MS_META_BESTBEFORE: string := "X-MS-Meta-Bestbefore"
  const X_NEXT_REFRESH: string := "X-Next-Refresh"
  const X_AMZ_META_NEXT_REFRESH: string := "X-Amz-Meta-Next-Refresh"
  const X_MS_META_NEXTREFRESH: string := "X-MS-Meta-Nextrefresh"
  const X_AMZ_META_BACKOFF: string := "X-Amz-Meta-Backoff"
  const X_UBIQUACHE: string := "X-Ubiquache"

  /** Cache-Control directives. */
  const ONLY_IF_CACHED: string := "only-if-cached"
  const NO_CACHE: string := "no-cache"

  /** Characters Ktor's header builder refuses in a name besides controls and space. */
  const HEADER_NAME_DELIMITERS: string := "\"(),/:;<=>?@[\\]{}"

  /** A name the header builder accepts: no character up to the space and no delimiter. */
  predicate LegalHeaderName(name: string) {
    forall c :: c in name ==> c > ' ' && c !in HEADER_NAME_DELIMITERS
  }

  /** A value the header builder accepts: no control character other than the tab. */
  predicate LegalHeaderValue(value: string) {
    forall c :: c in value ==> c >= ' ' || c == '\t'
  }

  predicate Named(h: Header, name: string) {
    EqualsIgnoreCase(h.name, name)
  }

  /** Position of the first header called `name`. */
  function FirstIndex(hs: Headers, name: string): (r: Option<nat>)
    ensures r.Some? ==> r.value < |hs| && Named(hs[r.value], name)
    ensures r.Some? ==> forall j :: 0 <= j < r.value ==> !Named(hs[j], name)
    ensures r.None? <==> forall j :: 0 <= j < |hs| ==> !Named(hs[j], name)
  {
    if hs == [] then None
    else if Named(hs[0], name) then Some(0)
    else match FirstIndex(hs[1..], name)
      case None => None
      case Some(i) => Some(i + 1)
  }

  /** `headers[name]`: the first value stored under `name`, or null. */
  function Get(hs: Headers, name: string): (r: Option<string>)
    ensures r.None? <==> forall j :: 0 <= j < |hs| ==> !Named(hs[j], name)
    ensures r.Some? ==> exists k :: 0 <= k < |hs| && Named(hs[k], name) && hs[k].value == r.value
    ensures r.Some? ==> FirstIndex(hs, name).Some? && r.value == hs[FirstIndex(hs, name).value].value
  {
    match FirstIndex(hs, name)
    case None => None
    case Some(i) => Some(hs[i].value)
  }

  /** `headers.contains(name)`. */
  predicate Has(hs: Headers, name: string) {
    Get(hs, name).Some?
  }

  lemma NotNamedByLength(h: Header, name: string)
    requires |h.name| != |name|
    ensures !Named(h, name)
  {
    assert |Lowercase(h.name)| != |Lowercase(name)|;
  }

  lemma NotNamedAt(h: Header, name: string, i: nat)
    requires i < |h.name| && i < |name|
    requires ToLowerAscii(h.name[i]) != ToLowerAscii(name[i])
    ensures !Named(h, name)
  {
    assert Lowercase(h.name)[i] != Lowercase(name)[i];
  }

  /** The value of one item of a header value: its trimmed text before the first `;`. */
  function ItemValue(item: string): string {
    Trim(Split(item, ';', 2)[0])
  }

  /**
   * The values of Ktor's `parseHeaderValue`, parameters left out: the value
   * is cut at every `,`; an item's value is its trimmed text before the
   * first `;`; an empty text after the last `,` is not an item.
   */
  function DirectiveValues(text: string): (ds: seq<string>)
    ensures text == [] ==> ds == []
  {
    var items := SplitAll(text, ',');
    var kept := if items[|items| - 1] == [] then items[..|items| - 1] else items;
    seq(|kept|, i requires 0 <= i < |kept| => ItemValue(kept[i]))
  }

  /** The items kept from the `,`-separated parts: all but an empty last one. */
  function KeptItems(parts: seq<string>): seq<string>
    requires |parts| >= 1
  {
    if parts[|parts| - 1] == [] then parts[..|parts| - 1] else parts
  }

  lemma DirectiveValuesOfItems(text: string)
    ensures DirectiveValues(text) == MapSeq(KeptItems(SplitAll(text, ',')), ItemValue)
  {
    var kept := KeptItems(SplitAll(text, ','));
    assert |DirectiveValues(text)| == |kept|;
    forall k | 0 <= k < |kept|
      ensures DirectiveValues(text)[k] == ItemValue(kept[k])
    {
    }
  }

  lemma KeptItemsCons(item: string, parts: seq<string>)
    requires |parts| >= 1
    ensures KeptItems([item] + parts) == [item] + KeptItems(parts)
  {
    var all := [item] + parts;
    assert all[|all| - 1] == parts[|parts| - 1];
    assert all[..|all| - 1] == [item] + parts[..|parts| - 1];
  }

  /** The text up to the first `,` gives the first item; the rest is parsed on its own. */
  lemma DirectiveValuesCons(item: string, rest: string)
    requires ',' !in item
    ensures DirectiveValues(item + [','] + rest) == [ItemValue(item)] + DirectiveValues(rest)
  {
    SplitAllAtFirst(item, ',', rest);
    KeptItemsCons(item, SplitAll(rest, ','));
    MapSeqCons(item, KeptItems(SplitAll(rest, ',')), ItemValue);
    DirectiveValuesOfItems(item + [','] + rest);
    DirectiveValuesOfItems(rest);
  }

  /** Text without a `,` is one item, or none when it is empty. */
  lemma DirectiveValuesLast(item: string)
    requires ',' !in item
    ensures DirectiveValues(item) == if item == [] then [] else [ItemValue(item)]
  {
    assert SplitAll(item, ',') == [item];
    if item != [] {
      assert DirectiveValues(item)[0] == ItemValue(item);
    }
  }

  /** `cacheControl()`: the directives of the first Cache-Control header. */
  function CacheControl(hs: Headers): seq<string> {
    match Get(hs, CACHE_CONTROL)
    case None => []
    case Some(v) => DirectiveValues(v)
  }

  /** A value with no `,` or `;` and no surrounding whitespace is one directive. */
  lemma SingleDirective(d: string)
    requires d != [] && IsTrimmed(d) && ',' !in d && ';' !in d
    ensures DirectiveValues(d) == [d]
  {
    DirectiveValuesLast(d);
    assert Split(d, ';', 2) == [d];
    TrimOfTrimmed(d);
  }
}
