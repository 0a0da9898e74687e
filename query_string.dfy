/**
 * `buildQueryString` of `lib/api.ts`: the defined entries of a parameter
 * record as `key=value` pieces joined with "&" behind a "?".
 */
module QueryString {
  import opened Wrappers
  import opened Sequences
  import opened Strings

  /** One entry of the parameter record; an `undefined` value is `None`. */
  type Entry = (string, Option<string>)

  function IsDefined(): Entry -> bool
  {
    (e: Entry) => e.1.Some?
  }

  /** `.filter(([_, value]) => value !== undefined)`. */
  function DefinedEntries(entries: seq<Entry>): (r: seq<Entry>)
    ensures forall i :: 0 <= i < |r| ==> r[i].1.Some?
  {
    var kept := Filter(entries, IsDefined());
    assert forall i :: 0 <= i < |kept| ==> IsDefined()(kept[i]);
    kept
  }

  /**
   * `.map(([key, value]) => `${key}=${encodeURIComponent(value!)}`)` over the
   * defined entries; `encode` stands for `encodeURIComponent`.
   */
  function Pieces(entries: seq<Entry>, encode: string -> string): seq<string>
  {
    var kept := DefinedEntries(entries);
    seq(|kept|, i requires 0 <= i < |kept| => kept[i].0 + "=" + encode(kept[i].1.value))
  }

  /** The query string, "" for an absent record or one with no defined values. */
  function BuildQueryString(params: Option<seq<Entry>>, encode: string -> string): string
  {
    match params
    case None => ""
    case Some(entries) =>
      var filtered := Join(Pieces(entries, encode), '&');
      if filtered != "" then "?" + filtered else ""
  }

  /** The result is "" exactly when the record is absent or none of its values is defined. */
  lemma BuildQueryStringEmpty(params: Option<seq<Entry>>, encode: string -> string)
    ensures BuildQueryString(params, encode) == "" <==>
      params.None? || forall i :: 0 <= i < |params.value| ==> params.value[i].1.None?
  {
    if params.Some? {
      var entries := params.value;
      var pieces := Pieces(entries, encode);
      JoinEmpty(pieces, '&');
      FilterEmpty(entries, IsDefined());
      if |pieces| > 0 {
        assert pieces[0][|DefinedEntries(entries)[0].0|] == '=';
      }
    }
  }

  /** Otherwise the result is "?" followed by the pieces joined with "&". */
  lemma BuildQueryStringShape(entries: seq<Entry>, encode: string -> string)
    requires exists i :: 0 <= i < |entries| && entries[i].1.Some?
    ensures BuildQueryString(Some(entries), encode) == "?" + Join(Pieces(entries, encode), '&')
  {
    BuildQueryStringEmpty(Some(entries), encode);
  }

  /** The defined entries are the input's entries with undefined values dropped, in input order. */
  lemma DefinedEntriesExact(entries: seq<Entry>, e: Entry)
    ensures e in DefinedEntries(entries) <==> e in entries && e.1.Some?
    ensures IsSubseq(DefinedEntries(entries), entries)
  {
    FilterMembers(entries, IsDefined(), e);
    FilterSubseq(entries, IsDefined());
  }

  /**
   * When no key and no encoded value holds "&", the text is "?" followed by
   * text that splits at "&" into one `key=encoded value` piece per defined
   * entry, in input order.
   */
  lemma QueryStringSplits(entries: seq<Entry>, encode: string -> string)
    requires exists i :: 0 <= i < |entries| && entries[i].1.Some?
    requires forall i :: 0 <= i < |entries| ==>
      '&' !in entries[i].0 && (entries[i].1.Some? ==> '&' !in encode(entries[i].1.value))
    ensures var r := BuildQueryString(Some(entries), encode);
      var kept := DefinedEntries(entries);
      && |r| >= 1 && r[0] == '?'
      && |Split(r[1..], '&')| == |kept|
      && forall i :: 0 <= i < |kept| ==> Split(r[1..], '&')[i] == kept[i].0 + "=" + encode(kept[i].1.value)
  {
    BuildQueryStringShape(entries, encode);
    var kept := DefinedEntries(entries);
    var pieces := Pieces(entries, encode);
    FilterEmpty(entries, IsDefined());
    forall k | 0 <= k < |pieces| ensures '&' !in pieces[k] {
      DefinedEntriesExact(entries, kept[k]);
      var i :| 0 <= i < |entries| && entries[i] == kept[k];
    }
    SplitJoin(pieces, '&');
    var r := BuildQueryString(Some(entries), encode);
    assert r[1..] == Join(pieces, '&');
  }

  /** An empty-string value is not `undefined`: it is kept as "key=" followed by its encoding. */
  lemma EmptyValueKept(key: string, encode: string -> string)
    ensures BuildQueryString(Some([(key, Some(""))]), encode) == "?" + key + "=" + encode("")
  {
    var entries := [(key, Some(""))];
    FilterAll(entries, IsDefined());
    BuildQueryStringShape(entries, encode);
    assert Pieces(entries, encode) == [key + "=" + encode("")];
  }
}
