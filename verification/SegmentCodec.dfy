/** Subtitle segments and the JSON shape in which checkpoint shards keep them. */
module SegmentCodec {
  import opened Wrappers
  import opened JsonValues

  datatype Semantic = Semantic(
    speaker: Option<string>,
    style: Option<string>,
    layer: Option<string>,
    kind: Option<string>)

  datatype Segment = Segment(
    id: string,
    text: string,
    start: Option<string>,
    end: Option<string>,
    identifier: Option<string>,
    settings: Option<string>,
    semantic: Semantic)

  const NO_SEMANTIC := Semantic(None, None, None, None)

  function OptionJson(value: Option<string>): Json {
    match value
    case Some(text) => Str(text)
    case None => Null
  }

  /** Serialising a semantic context leaves its absent members out. */
  function SemanticJson(semantic: Semantic): Json {
    Object(Present("speaker", semantic.speaker) + Present("style", semantic.style)
           + Present("layer", semantic.layer) + Present("kind", semantic.kind))
  }

  function Present(key: string, value: Option<string>): seq<Member> {
    match value
    case Some(text) => [Member(key, Str(text))]
    case None => []
  }

  function SegmentJson(segment: Segment): Json {
    Object([Member("id", Str(segment.id)), Member("text", Str(segment.text)),
            Member("start", OptionJson(segment.start)), Member("end", OptionJson(segment.end)),
            Member("identifier", OptionJson(segment.identifier)), Member("settings", OptionJson(segment.settings))]
           + if segment.semantic == NO_SEMANTIC then [] else [Member("semantic", SemanticJson(segment.semantic))])
  }

  /** Text members of the wrong type read as absent. */
  function TextOf(value: Json): Option<string> {
    if value.Str? then Some(value.text) else None
  }

  function TextOrEmpty(value: Json): string {
    if value.Str? then value.text else ""
  }

  /** Deserialising a semantic member is strict: anything but a string or null is an error. */
  function SemanticMember(value: Json, key: string): Result<Option<string>, string> {
    match value.At(key)
    case Null => Ok(None)
    case Str(text) => Ok(Some(text))
    case _ => Err("invalid semantic metadata")
  }

  function SemanticFromJson(value: Json): Result<Semantic, string> {
    if !value.Object? then Err("invalid semantic metadata") else
    var speaker :- SemanticMember(value, "speaker");
    var style :- SemanticMember(value, "style");
    var layer :- SemanticMember(value, "layer");
    var kind :- SemanticMember(value, "kind");
    Ok(Semantic(speaker, style, layer, kind))
  }

  function SegmentFromJson(value: Json): Result<Segment, string> {
    var semantic :-
      (match value.Get("semantic")
       case None => Ok(NO_SEMANTIC)
       case Some(Null) => Ok(NO_SEMANTIC)
       case Some(member) => SemanticFromJson(member));
    Ok(Segment(TextOrEmpty(value.At("id")), TextOrEmpty(value.At("text")),
               TextOf(value.At("start")), TextOf(value.At("end")),
               TextOf(value.At("identifier")), TextOf(value.At("settings")), semantic))
  }

  /** Looking a key up skips every member with another name. */
  lemma LookupAppend(left: seq<Member>, right: seq<Member>, key: string)
    ensures Lookup(left + right, key) ==
            if Lookup(left, key).Some? then Lookup(left, key) else Lookup(right, key)
  {
    if left == [] {
      assert left + right == right;
    } else {
      assert (left + right)[1..] == left[1..] + right;
      LookupAppend(left[1..], right, key);
    }
  }

  lemma PresentLookup(key: string, value: Option<string>, other: string)
    ensures Lookup(Present(key, value), other) ==
            if key == other && value.Some? then Some(Str(value.value)) else None
  {
  }

  lemma SemanticMemberRoundTrip(semantic: Semantic, key: string)
    ensures SemanticMember(SemanticJson(semantic), key) == Ok(
              if key == "speaker" then semantic.speaker
              else if key == "style" then semantic.style
              else if key == "layer" then semantic.layer
              else if key == "kind" then semantic.kind else None)
  {
    var a, b, c, d := Present("speaker", semantic.speaker), Present("style", semantic.style),
                      Present("layer", semantic.layer), Present("kind", semantic.kind);
    LookupAppend(a + b + c, d, key);
    LookupAppend(a + b, c, key);
    LookupAppend(a, b, key);
    PresentLookup("speaker", semantic.speaker, key);
    PresentLookup("style", semantic.style, key);
    PresentLookup("layer", semantic.layer, key);
    PresentLookup("kind", semantic.kind, key);
  }

  /** A segment read back from its shard form is the segment that was written. */
  lemma SegmentRoundTrip(segment: Segment)
    ensures SegmentFromJson(SegmentJson(segment)) == Ok(segment)
  {
    var base := [Member("id", Str(segment.id)), Member("text", Str(segment.text)),
                 Member("start", OptionJson(segment.start)), Member("end", OptionJson(segment.end)),
                 Member("identifier", OptionJson(segment.identifier)), Member("settings", OptionJson(segment.settings))];
    var tail := if segment.semantic == NO_SEMANTIC then [] else [Member("semantic", SemanticJson(segment.semantic))];
    SegmentMembers(segment, base, tail);
    SemanticMemberRoundTrip(segment.semantic, "speaker");
    SemanticMemberRoundTrip(segment.semantic, "style");
    SemanticMemberRoundTrip(segment.semantic, "layer");
    SemanticMemberRoundTrip(segment.semantic, "kind");
  }

  lemma SegmentMembers(segment: Segment, base: seq<Member>, tail: seq<Member>)
    requires base == [Member("id", Str(segment.id)), Member("text", Str(segment.text)),
                      Member("start", OptionJson(segment.start)), Member("end", OptionJson(segment.end)),
                      Member("identifier", OptionJson(segment.identifier)), Member("settings", OptionJson(segment.settings))]
    ensures Lookup(base + tail, "id") == Some(Str(segment.id))
    ensures Lookup(base + tail, "text") == Some(Str(segment.text))
    ensures Lookup(base + tail, "start") == Some(OptionJson(segment.start))
    ensures Lookup(base + tail, "end") == Some(OptionJson(segment.end))
    ensures Lookup(base + tail, "identifier") == Some(OptionJson(segment.identifier))
    ensures Lookup(base + tail, "settings") == Some(OptionJson(segment.settings))
    ensures Lookup(base + tail, "semantic") == Lookup(tail, "semantic")
  {
    LookupAppend(base, tail, "id");
    LookupAppend(base, tail, "text");
    LookupAppend(base, tail, "start");
    LookupAppend(base, tail, "end");
    LookupAppend(base, tail, "identifier");
    LookupAppend(base, tail, "settings");
    LookupAppend(base, tail, "semantic");
    LookupFirst(base, "id", 0);
    LookupFirst(base, "text", 1);
    LookupFirst(base, "start", 2);
    LookupFirst(base, "end", 3);
    LookupFirst(base, "identifier", 4);
    LookupFirst(base, "settings", 5);
    LookupFirst(base, "semantic", 6);
  }

  /** The first member called `key` is at `i`, or there is none. */
  lemma {:induction false} LookupFirst(fields: seq<Member>, key: string, i: nat)
    requires i <= |fields| && forall j | 0 <= j < i :: fields[j].key != key
    requires i < |fields| ==> fields[i].key == key
    ensures Lookup(fields, key) == if i < |fields| then Some(fields[i].value) else None
    decreases i
  {
    if i > 0 {
      assert forall j | 0 <= j < i - 1 :: fields[1..][j] == fields[j + 1];
      LookupFirst(fields[1..], key, i - 1);
    }
  }

  /** An optional member of the semantic part may be missing or null, and must be text otherwise. */
  predicate Acceptable(value: Json) {
    value.Null? || value.Str?
  }

  /**
   * Only the semantic part can make a segment unreadable: it must be missing, null, or an object whose four members
   * are acceptable.  A missing identifier or text, or one that is not text, is read as empty.
   */
  lemma SegmentReads(value: Json)
    ensures SegmentFromJson(value).Ok? <==>
            var semantic := value.At("semantic");
            semantic.Null?
            || (semantic.Object? && Acceptable(semantic.At("speaker")) && Acceptable(semantic.At("style"))
                && Acceptable(semantic.At("layer")) && Acceptable(semantic.At("kind")))
    ensures SegmentFromJson(value).Ok? ==>
              var segment := SegmentFromJson(value).value;
              && (if value.At("id").Str? then value.At("id") == Str(segment.id) else segment.id == "")
              && (if value.At("text").Str? then value.At("text") == Str(segment.text) else segment.text == "")
              && (value.At("start").Str? <==> segment.start.Some?) && (value.At("end").Str? <==> segment.end.Some?)
              && (value.At("identifier").Str? <==> segment.identifier.Some?)
              && (value.At("settings").Str? <==> segment.settings.Some?)
              && (value.At("semantic").Null? ==> segment.semantic == NO_SEMANTIC)
  {
  }

  /** The members of a segment's JSON form, by name; an empty semantic part is not written at all. */
  lemma SegmentFormat(segment: Segment)
    ensures var j := SegmentJson(segment);
            && j.Get("id") == Some(Str(segment.id)) && j.Get("text") == Some(Str(segment.text))
            && j.Get("start") == Some(if segment.start.Some? then Str(segment.start.value) else Null)
            && j.Get("end") == Some(if segment.end.Some? then Str(segment.end.value) else Null)
            && j.Get("identifier") == Some(if segment.identifier.Some? then Str(segment.identifier.value) else Null)
            && j.Get("settings") == Some(if segment.settings.Some? then Str(segment.settings.value) else Null)
            && (j.Get("semantic").None? <==> segment.semantic == NO_SEMANTIC)
  {
    var base := [Member("id", Str(segment.id)), Member("text", Str(segment.text)),
                 Member("start", OptionJson(segment.start)), Member("end", OptionJson(segment.end)),
                 Member("identifier", OptionJson(segment.identifier)), Member("settings", OptionJson(segment.settings))];
    var tail := if segment.semantic == NO_SEMANTIC then [] else [Member("semantic", SemanticJson(segment.semantic))];
    SegmentMembers(segment, base, tail);
    if tail != [] {
      LookupFirst(tail, "semantic", 0);
    }
  }
}
