/**
 Feed cursors at the level of JSON values: what `encodeFeedCursor` writes and `decodeFeedCursor` accepts.
 The base64url and JSON texts around the value are not part of this model.
 */
module FeedCursor {
  import opened Wrappers

  /** A JavaScript number: finite, or NaN or an infinity (which JSON text writes as null). */
  datatype Number = Finite(value: real) | NonFinite

  datatype Json =
    | JNull
    | JBool(flag: bool)
    | JNumber(number: Number)
    | JString(text: string)
    | JArray(items: seq<Json>)
    | JObject(fields: map<string, Json>)

  datatype Sort = Latest | Hot

  datatype FeedCursor =
    | LatestCursor(ts: Number, seenIds: Option<seq<string>>)
    | HotCursor(offset: Number)

  /** The query parameter: absent (or empty), not parsable, or some JSON value. */
  datatype Parameter = Absent | Garbage | Parsed(json: Json)

  function SortName(sort: Sort): string { if sort == Latest then "latest" else "hot" }

  function SortOf(c: FeedCursor): Sort { if c.LatestCursor? then Latest else Hot }

  function WriteNumber(n: Number): Json { if n.Finite? then JNumber(n) else JNull }

  function WriteStrings(ids: seq<string>): Json { JArray(seq(|ids|, i requires 0 <= i < |ids| => JString(ids[i]))) }

  function Encode(c: FeedCursor): Json {
    match c
    case LatestCursor(ts, None) => JObject(map["sort" := JString("latest"), "ts" := WriteNumber(ts)])
    case LatestCursor(ts, Some(ids)) =>
      JObject(map["sort" := JString("latest"), "ts" := WriteNumber(ts), "seenIds" := WriteStrings(ids)])
    case HotCursor(offset) => JObject(map["sort" := JString("hot"), "offset" := WriteNumber(offset)])
  }

  predicate IsFinite(j: Json) { j.JNumber? && j.number.Finite? }

  predicate IsStrings(j: Json) { j.JArray? && forall i | 0 <= i < |j.items| :: j.items[i].JString? }

  function ReadStrings(j: Json): seq<string>
    requires IsStrings(j)
  {
    seq(|j.items|, i requires 0 <= i < |j.items| => j.items[i].text)
  }

  function Decode(p: Parameter, sort: Sort): Result<Option<FeedCursor>, string> {
    match p
    case Absent => Ok(None)
    case Garbage => Err("Invalid cursor")
    case Parsed(json) =>
      if !json.JObject? || "sort" !in json.fields || json.fields["sort"] != JString(SortName(sort)) then
        Err("Invalid cursor for sort=" + SortName(sort))
      else if sort == Latest then
        if "ts" !in json.fields || !IsFinite(json.fields["ts"]) then Err("Invalid cursor")
        else if "seenIds" !in json.fields then Ok(Some(LatestCursor(json.fields["ts"].number, Some([]))))
        else if !IsStrings(json.fields["seenIds"]) then Err("Invalid cursor")
        else Ok(Some(LatestCursor(json.fields["ts"].number, Some(ReadStrings(json.fields["seenIds"])))))
      else
        if "offset" !in json.fields || !IsFinite(json.fields["offset"]) || json.fields["offset"].number.value < 0.0 then
          Err("Invalid cursor")
        else Ok(Some(HotCursor(json.fields["offset"].number)))
  }

  /** A cursor the service can issue: finite, and at a non-negative offset. */
  predicate Issuable(c: FeedCursor) {
    match c
    case LatestCursor(ts, _) => ts.Finite?
    case HotCursor(offset) => offset.Finite? && offset.value >= 0.0
  }

  /** A cursor without ids reads back with an empty list of them. */
  function Normal(c: FeedCursor): FeedCursor {
    if c.LatestCursor? && c.seenIds.None? then c.(seenIds := Some([])) else c
  }

  /** Encoding and decoding under the cursor's own sort gives the cursor back exactly when it is issuable. */
  lemma RoundTrip(c: FeedCursor)
    ensures Decode(Parsed(Encode(c)), SortOf(c)) == Ok(Some(Normal(c))) <==> Issuable(c)
    ensures !Issuable(c) ==> Decode(Parsed(Encode(c)), SortOf(c)).Err?
  {
    if c.LatestCursor? && c.seenIds.Some? {
      var ids := c.seenIds.value;
      assert IsStrings(WriteStrings(ids));
      assert ReadStrings(WriteStrings(ids)) == ids;
    }
  }

  /** A cursor of one sort is refused by the other, whatever is in it. */
  lemma OtherSortRefused(c: FeedCursor, sort: Sort)
    requires sort != SortOf(c)
    ensures Decode(Parsed(Encode(c)), sort).Err?
  {
    assert "latest" != "hot" by { assert |"latest"| == 6; }
  }

  /** Whatever is accepted has the requested sort, could have been issued, and re-encodes to itself. */
  lemma DecodedCursorsAreIssuable(p: Parameter, sort: Sort)
    requires Decode(p, sort).Ok? && Decode(p, sort).value.Some?
    ensures var c := Decode(p, sort).value.value;
      SortOf(c) == sort && Issuable(c) && Decode(Parsed(Encode(c)), sort) == Ok(Some(c))
  {
    RoundTrip(Decode(p, sort).value.value);
  }

  /** No parameter means the first page, and one that does not parse is refused, for either sort. */
  lemma NoCursorStartsOver(sort: Sort)
    ensures Decode(Absent, sort) == Ok(None)
    ensures Decode(Garbage, sort) == Err("Invalid cursor")
  {
  }

  /** Exactly what is accepted for the latest feed, and what is read from it. */
  lemma LatestAcceptsExactly(json: Json)
    ensures Decode(Parsed(json), Latest).Ok? <==>
              && json.JObject? && "sort" in json.fields && json.fields["sort"] == JString("latest")
              && "ts" in json.fields && json.fields["ts"].JNumber? && json.fields["ts"].number.Finite?
              && ("seenIds" in json.fields ==>
                    json.fields["seenIds"].JArray?
                    && forall i | 0 <= i < |json.fields["seenIds"].items| :: json.fields["seenIds"].items[i].JString?)
    ensures Decode(Parsed(json), Latest).Ok? ==>
              var c := Decode(Parsed(json), Latest).value;
              && c.Some? && c.value.LatestCursor? && c.value.ts == json.fields["ts"].number && c.value.seenIds.Some?
              && ("seenIds" !in json.fields ==> c.value.seenIds.value == [])
              && ("seenIds" in json.fields ==>
                    |c.value.seenIds.value| == |json.fields["seenIds"].items|
                    && forall i | 0 <= i < |c.value.seenIds.value| ::
                         json.fields["seenIds"].items[i] == JString(c.value.seenIds.value[i]))
  {
  }

  /** And for the hot one. */
  lemma HotAcceptsExactly(json: Json)
    ensures Decode(Parsed(json), Hot).Ok? <==>
              && json.JObject? && "sort" in json.fields && json.fields["sort"] == JString("hot")
              && "offset" in json.fields && json.fields["offset"].JNumber? && json.fields["offset"].number.Finite?
              && json.fields["offset"].number.value >= 0.0
    ensures Decode(Parsed(json), Hot).Ok? ==>
              Decode(Parsed(json), Hot).value == Some(HotCursor(json.fields["offset"].number))
  {
  }

  /** A cursor for the wrong sort, or none at all, is told so by name; one with bad fields is told only that. */
  lemma RefusalNamesTheSort(json: Json, sort: Sort)
    ensures Decode(Parsed(json), sort).Err? ==>
              Decode(Parsed(json), sort).error
              == if json.JObject? && "sort" in json.fields
                    && json.fields["sort"] == JString(if sort == Latest then "latest" else "hot")
                 then "Invalid cursor"
                 else if sort == Latest then "Invalid cursor for sort=latest" else "Invalid cursor for sort=hot"
  {
  }
}
