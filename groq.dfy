/** app/routers/groq.py: the text and audio routes. The language-model client
    is an optional capability; what a call returns (or that it raised) is an
    input here. `extract_text` pulls a transcript out of the response, and a
    transcript whose stripped form is at most one character is dropped. */
module GroqRouter {
  import opened Wrappers
  import opened TextOps
  import opened Db

  /** A transcription response, as far as `extract_text` inspects it. A Python
      dict is an association list with distinct keys; `Obj` is a client
      response object, of which only the attribute `text` is read. */
  datatype Value =
    | Str(s: string)
    | List(items: seq<Value>)
    | Dict(entries: seq<(string, Value)>)
    | Obj(textAttr: Option<Value>)
    | Scalar

  /** `d.get(key)` of a dict. */
  function Lookup(entries: seq<(string, Value)>, key: string): (r: Option<Value>)
  {
    if |entries| == 0 then None
    else if entries[0].0 == key then Some(entries[0].1)
    else Lookup(entries[1..], key)
  }

  /** `d[key].strip()` when `key in d and isinstance(d[key], str) and
      d[key].strip()`, else nothing. */
  function StrippedField(entries: seq<(string, Value)>, key: string): Option<string> {
    match Lookup(entries, key)
    case Some(Str(t)) => if Strip(t) != "" then Some(Strip(t)) else None
    case _ => None
  }

  /** A field taken is non-blank and stripped. */
  lemma StrippedFieldNonBlank(entries: seq<(string, Value)>, key: string)
    ensures StrippedField(entries, key).Some? ==>
              StrippedField(entries, key).value != "" && IsStripped(StrippedField(entries, key).value)
  {
  }

  function OptionList(o: Option<string>): seq<string> {
    if o.Some? then [o.value] else []
  }

  /** The parts collected so far, or the IndexError that `alternatives[0]`
      raises on an empty list. */
  datatype Collected = Collected(parts: seq<string>) | IndexError

  /** Both runs of parts in order; an IndexError in either is the outcome. */
  function Then(a: Collected, b: Collected): Collected {
    if a.IndexError? || b.IndexError? then IndexError else Collected(a.parts + b.parts)
  }

  /** The non-blank `text` then `transcript` of an alternative that is a dict. */
  function FirstAlternativeParts(alt: Value): seq<string> {
    if alt.Dict? then
      OptionList(StrippedField(alt.entries, "text")) + OptionList(StrippedField(alt.entries, "transcript"))
    else []
  }

  /** The parts of the first alternative, or the IndexError of
      `r['alternatives'][0]` on an empty list. */
  function AlternativeParts(entries: seq<(string, Value)>): Collected {
    match Lookup(entries, "alternatives")
    case Some(List(alternatives)) =>
      if |alternatives| == 0 then IndexError else Collected(FirstAlternativeParts(alternatives[0]))
    case _ => Collected([])
  }

  /** What one element of `results` adds to `parts`: from a dict, its first
      alternative's parts, then its own non-blank `text`. */
  function ResultParts(r: Value): Collected {
    if r.Dict? then Then(AlternativeParts(r.entries), Collected(OptionList(StrippedField(r.entries, "text"))))
    else Collected([])
  }

  /** The parts collected from `results`, in order. */
  function PartsOf(results: seq<Value>): Collected
    decreases |results|
  {
    if |results| == 0 then Collected([])
    else Then(PartsOf(results[..|results| - 1]), ResultParts(results[|results| - 1]))
  }

  /** A result whose `alternatives` is an empty list. */
  predicate EmptyAlternatives(r: Value) {
    r.Dict? && Lookup(r.entries, "alternatives") == Some(List([]))
  }

  /** The non-blank `text` found before looking at `results`: the `text`
      attribute of a response object, or the `text` key of a dict. */
  function TopLevelText(obj: Value): (r: Option<string>)
    ensures r.Some? ==> r.value != "" && IsStripped(r.value)
  {
    match obj
    case Obj(Some(Str(t))) => if Strip(t) != "" then Some(Strip(t)) else None
    case Dict(entries) => StrippedFieldNonBlank(entries, "text"); StrippedField(entries, "text")
    case _ => None
  }

  /** The `results` list of a dict response, if it has one. */
  function ResultsOf(obj: Value): Option<seq<Value>> {
    if obj.Dict? then
      match Lookup(obj.entries, "results")
      case Some(List(items)) => Some(items)
      case _ => None
    else None
  }

  /** The last resort `str(obj).strip()`, unless blank or `'{}'`; `repr`
      stands for `str(obj)`. */
  function ReprFallback(repr: string): (r: Option<string>)
    ensures r.Some? ==> r.value != "" && IsStripped(r.value)
  {
    if Strip(repr) != "" && Strip(repr) != "{}" then Some(Strip(repr)) else None
  }

  /** What `extract_text` returns, or that it raised. */
  datatype Extracted = Returned(text: Option<string>) | Raised

  /** `extract_text(obj)`, with `repr` standing for `str(obj)`. It raises only
      from collecting `results`, and returns nothing only when the `str(obj)`
      fallback is blank or `{}`. */
  function Extract(obj: Value, repr: string): (r: Extracted)
    ensures r.Raised? ==> TopLevelText(obj).None? && ResultsOf(obj).Some? && PartsOf(ResultsOf(obj).value).IndexError?
    ensures r == Returned(None) ==> ReprFallback(repr).None?
  {
    if TopLevelText(obj).Some? then Returned(TopLevelText(obj))
    else if ResultsOf(obj).Some? then
      match PartsOf(ResultsOf(obj).value)
      case IndexError => Raised
      case Collected(ps) => if ps != [] then Returned(Some(Join(" ", ps))) else Returned(ReprFallback(repr))
    else Returned(ReprFallback(repr))
  }

  lemma {:induction false} IndexErrorPersists(results: seq<Value>, j: nat)
    requires j <= |results|
    requires PartsOf(results[..j]) == IndexError
    ensures PartsOf(results) == IndexError
    decreases |results| - j
  {
    if j < |results| {
      assert results[..j + 1][..j] == results[..j];
      IndexErrorPersists(results, j + 1);
    } else {
      assert results[..j] == results;
    }
  }

  /** The first-alternative part of the loop body: appends its non-blank
      `text` and `transcript` to `parts`, or raises on an empty list. */
  method CollectAlternative(entries: seq<(string, Value)>, parts: seq<string>) returns (r: Collected)
    ensures r == Then(Collected(parts), AlternativeParts(entries))
  {
    var alternatives := Lookup(entries, "alternatives");
    if !(alternatives.Some? && alternatives.value.List?) {
      return Collected(parts);
    }
    var items := alternatives.value.items;
    if |items| == 0 {
      return IndexError;
    }
    var acc := CollectFirstAlternative(items[0], parts);
    r := Collected(acc);
  }

  /** The `for k in ('text', 'transcript')` loop over the first alternative. */
  method CollectFirstAlternative(alt: Value, parts: seq<string>) returns (acc: seq<string>)
    ensures acc == parts + FirstAlternativeParts(alt)
  {
    acc := parts;
    if alt.Dict? {
      var t := StrippedField(alt.entries, "text");
      if t.Some? {
        acc := acc + [t.value];
      }
      assert acc == parts + OptionList(t);
      var u := StrippedField(alt.entries, "transcript");
      if u.Some? {
        acc := acc + [u.value];
      }
      assert acc == (parts + OptionList(t)) + OptionList(u);
      assert (parts + OptionList(t)) + OptionList(u) == parts + (OptionList(t) + OptionList(u));
    }
  }

  /** One pass of the loop body of `extract_text`: appends what `res`
      contributes to `parts`, or raises. */
  method CollectResult(res: Value, parts: seq<string>) returns (r: Collected)
    ensures r == Then(Collected(parts), ResultParts(res))
  {
    if !res.Dict? {
      return Collected(parts);
    }
    r := CollectAlternative(res.entries, parts);
    if r.IndexError? {
      return;
    }
    var own := StrippedField(res.entries, "text");
    assert r.parts == parts + AlternativeParts(res.entries).parts;
    if own.Some? {
      r := Collected(r.parts + [own.value]);
    }
  }

  /** `extract_text`: the loop over `results` appending to `parts`. */
  method ExtractText(obj: Value, repr: string) returns (r: Extracted)
    ensures r == Extract(obj, repr)
  {
    var top := TopLevelText(obj);
    if top.Some? {
      return Returned(top);
    }
    if obj.Dict? {
      var found := Lookup(obj.entries, "results");
      if found.Some? && found.value.List? {
        var results := found.value.items;
        var parts: seq<string> := [];
        var i := 0;
        while i < |results|
          invariant 0 <= i <= |results|
          invariant PartsOf(results[..i]) == Collected(parts)
        {
          var next := CollectResult(results[i], parts);
          assert results[..i + 1][..i] == results[..i];
          if next.IndexError? {
            IndexErrorPersists(results, i + 1);
            return Raised;
          }
          parts := next.parts;
          i := i + 1;
        }
        assert results[..i] == results;
        if parts != [] {
          return Returned(Some(Join(" ", parts)));
        }
      }
    }
    r := Returned(ReprFallback(repr));
  }

  /** Every part is non-blank and stripped. */
  predicate NonBlankParts(ps: seq<string>) {
    forall i :: 0 <= i < |ps| ==> ps[i] != "" && IsStripped(ps[i])
  }

  lemma OptionListNonBlank(o: Option<string>)
    requires o.Some? ==> o.value != "" && IsStripped(o.value)
    ensures NonBlankParts(OptionList(o))
  {
  }

  lemma NonBlankConcat(a: seq<string>, b: seq<string>)
    requires NonBlankParts(a) && NonBlankParts(b)
    ensures NonBlankParts(a + b)
  {
    forall i | 0 <= i < |a + b|
      ensures (a + b)[i] != "" && IsStripped((a + b)[i])
    {
      if i >= |a| {
        assert (a + b)[i] == b[i - |a|];
      }
    }
  }

  lemma FieldPartNonBlank(entries: seq<(string, Value)>, key: string)
    ensures NonBlankParts(OptionList(StrippedField(entries, key)))
  {
    StrippedFieldNonBlank(entries, key);
    OptionListNonBlank(StrippedField(entries, key));
  }

  lemma FirstAlternativeNonBlank(alt: Value)
    ensures NonBlankParts(FirstAlternativeParts(alt))
  {
    if alt.Dict? {
      FieldPartNonBlank(alt.entries, "text");
      FieldPartNonBlank(alt.entries, "transcript");
      NonBlankConcat(OptionList(StrippedField(alt.entries, "text")), OptionList(StrippedField(alt.entries, "transcript")));
    }
  }

  lemma AlternativePartsNonBlank(entries: seq<(string, Value)>)
    requires AlternativeParts(entries).Collected?
    ensures NonBlankParts(AlternativeParts(entries).parts)
  {
    match Lookup(entries, "alternatives")
    case Some(List(alternatives)) =>
      if |alternatives| > 0 {
        FirstAlternativeNonBlank(alternatives[0]);
      }
    case _ =>
  }

  lemma ResultPartsNonBlank(r: Value)
    requires ResultParts(r).Collected?
    ensures NonBlankParts(ResultParts(r).parts)
  {
    if r.Dict? {
      AlternativePartsNonBlank(r.entries);
      FieldPartNonBlank(r.entries, "text");
      NonBlankConcat(AlternativeParts(r.entries).parts, OptionList(StrippedField(r.entries, "text")));
    }
  }

  lemma {:induction false} PartsNonBlank(results: seq<Value>)
    requires PartsOf(results).Collected?
    ensures NonBlankParts(PartsOf(results).parts)
    decreases |results|
  {
    if |results| > 0 {
      var init, last := results[..|results| - 1], results[|results| - 1];
      assert PartsOf(results) == Then(PartsOf(init), ResultParts(last));
      PartsNonBlank(init);
      ResultPartsNonBlank(last);
      NonBlankConcat(PartsOf(init).parts, ResultParts(last).parts);
    }
  }

  /** Whatever `extract_text` returns is non-blank and already stripped. */
  lemma ExtractIsStripped(obj: Value, repr: string)
    ensures Extract(obj, repr).Returned? && Extract(obj, repr).text.Some? ==>
              Extract(obj, repr).text.value != "" && IsStripped(Extract(obj, repr).text.value)
  {
    if TopLevelText(obj).None? && ResultsOf(obj).Some? && PartsOf(ResultsOf(obj).value).Collected? {
      var ps := PartsOf(ResultsOf(obj).value).parts;
      if ps != [] {
        PartsNonBlank(ResultsOf(obj).value);
        JoinStripped(ps);
      }
    }
  }

  /** Collecting raises exactly when some result has an empty `alternatives` list. */
  lemma {:induction false} PartsRaiseIff(results: seq<Value>)
    ensures PartsOf(results) == IndexError <==> exists i :: 0 <= i < |results| && EmptyAlternatives(results[i])
    decreases |results|
  {
    if |results| > 0 {
      var init := results[..|results| - 1];
      PartsRaiseIff(init);
      var last := results[|results| - 1];
      assert ResultParts(last) == IndexError <==> EmptyAlternatives(last);
      if exists i :: 0 <= i < |init| && EmptyAlternatives(init[i]) {
        var i :| 0 <= i < |init| && EmptyAlternatives(init[i]);
        assert results[i] == init[i];
      }
      if exists i :: 0 <= i < |results| && EmptyAlternatives(results[i]) {
        var i :| 0 <= i < |results| && EmptyAlternatives(results[i]);
        if i < |results| - 1 {
          assert init[i] == results[i];
        }
      }
    }
  }

  /** The filter after extraction: a transcript whose stripped form is `.`,
      `,`, `。`, empty, or at most one character long becomes empty. */
  function FilterTranscript(t: string): (r: string)
    ensures r == "" || r == t
    ensures r == "" <==> |Strip(t)| <= 1
  {
    var s := Strip(t);
    if s in {".", ",", "。", ""} || |s| <= 1 then "" else t
  }

  /** The three punctuation strings the filter names are already caught by
      its length test. */
  lemma PunctuationIsShort(t: string)
    requires Strip(t) in {".", ",", "。", ""}
    ensures |Strip(t)| <= 1 && FilterTranscript(t) == ""
  {
  }

  /** The transcription capability: unconfigured, a call that raised, or the
      response object together with its `str()`. */
  datatype Transcriber = NotConfigured | CallRaised | Responded(obj: Value, repr: string)

  /** The opening words of the no-client transcript. */
  const NotConfiguredPrefix := "(groq not configured - uploaded "

  function NotConfiguredTranscript(filename: string, byteCount: nat): (r: string)
    ensures StartsWith(r, NotConfiguredPrefix) && EndsWith(r, filename + ")")
  {
    NotConfiguredPrefix + Decimal(byteCount) + " bytes as " + filename + ")"
  }

  /** The no-client transcript carries the byte count, read back from the
      digits after its opening words, and ends with the file name. */
  lemma NotConfiguredNamesUpload(filename: string, byteCount: nat)
    ensures var t, k, d := NotConfiguredTranscript(filename, byteCount), |NotConfiguredPrefix|, |Decimal(byteCount)|;
            && k + d <= |t| && IsDigits(t[k..k + d]) && ParseDecimal(t[k..k + d]) == byteCount
            && EndsWith(t, filename + ")")
  {
    var t, k, d := NotConfiguredTranscript(filename, byteCount), |NotConfiguredPrefix|, |Decimal(byteCount)|;
    assert t[k..k + d] == Decimal(byteCount);
    assert t[|t| - |filename + ")"|..] == filename + ")";
    DecimalRoundTrip(byteCount);
  }

  /** The opening words of the transcript of a failed call. */
  const FailedPrefix := "(groq transcription failed - uploaded "

  /** The failed-call transcript: its opening words, the file name and `)`. */
  function FailedTranscript(filename: string): (r: string)
    ensures StartsWith(r, FailedPrefix) && |r| == |FailedPrefix| + |filename| + 1
    ensures EndsWith(r, filename + ")")
  {
    FailedPrefix + filename + ")"
  }

  /** The two fallback transcripts never coincide, so a reader of the log can
      tell a missing client from a failed call. */
  lemma TranscriptFallbacksDiffer(filename: string, byteCount: nat)
    ensures NotConfiguredTranscript(filename, byteCount) != FailedTranscript(filename)
  {
    var a, b := NotConfiguredTranscript(filename, byteCount), FailedTranscript(filename);
    assert a[6] == 'n' && b[6] == 't';
  }

  /** The transcript `groq_audio` returns and logs: one of the two fallback
      messages, nothing, or a stripped text of at least two characters. */
  function AudioTranscript(filename: string, byteCount: nat, t: Transcriber): (r: string)
    ensures || r == NotConfiguredTranscript(filename, byteCount) || r == FailedTranscript(filename)
            || r == "" || (IsStripped(r) && |r| >= 2)
  {
    match t
    case NotConfigured => NotConfiguredTranscript(filename, byteCount)
    case CallRaised => FailedTranscript(filename)
    case Responded(obj, repr) =>
      ExtractIsStripped(obj, repr);
      match Extract(obj, repr)
      case Raised => FailedTranscript(filename)
      case Returned(text) => FilterTranscript(if text.Some? then text.value else "")
  }

  /** From a response, the transcript is empty, a stripped string of at least
      two characters, or the failure message. */
  lemma RespondedTranscript(filename: string, byteCount: nat, obj: Value, repr: string)
    ensures var t := AudioTranscript(filename, byteCount, Responded(obj, repr));
            t == "" || (IsStripped(t) && |t| >= 2) || t == FailedTranscript(filename)
  {
    ExtractIsStripped(obj, repr);
  }

  /** An empty `alternatives` list in any result (and no top-level text)
      turns into the failure message. */
  lemma EmptyAlternativesFails(filename: string, byteCount: nat, obj: Value, repr: string, i: nat)
    requires TopLevelText(obj).None? && ResultsOf(obj).Some?
    requires i < |ResultsOf(obj).value| && EmptyAlternatives(ResultsOf(obj).value[i])
    ensures AudioTranscript(filename, byteCount, Responded(obj, repr)) == FailedTranscript(filename)
  {
    PartsRaiseIff(ResultsOf(obj).value);
  }

  /** The chat capability: unconfigured, a call that raised, or the reply. */
  datatype Chat = ChatNotConfigured | ChatRaised | ChatReplied(content: string)

  /** The opening words of the no-client text output. */
  const TextNotConfiguredPrefix := "GroqOutput for: "

  /** The opening words of the text output after a raised call. */
  const TextRaisedPrefix := "GroqError fallback for: "

  /** The output `groq_text` returns and logs: the reply, or the fallback for
      the case at hand, its opening words followed by the input. */
  function TextOutput(text: string, chat: Chat): (r: string)
    ensures chat.ChatReplied? ==> r == chat.content
    ensures chat.ChatNotConfigured? ==>
              StartsWith(r, TextNotConfiguredPrefix) && r[|TextNotConfiguredPrefix|..] == text
    ensures chat.ChatRaised? ==> StartsWith(r, TextRaisedPrefix) && r[|TextRaisedPrefix|..] == text
    ensures !chat.ChatReplied? ==> EndsWith(r, text) && |r| > |text|
  {
    match chat
    case ChatNotConfigured =>
      var r := TextNotConfiguredPrefix + text; assert r[|r| - |text|..] == text; r
    case ChatRaised =>
      var r := TextRaisedPrefix + text; assert r[|r| - |text|..] == text; r
    case ChatReplied(content) => content
  }

  /** Both fallbacks end with the input, and tell apart which one it was. */
  lemma FallbacksNameInput(text: string)
    ensures EndsWith(TextOutput(text, ChatNotConfigured), text)
    ensures EndsWith(TextOutput(text, ChatRaised), text)
    ensures TextOutput(text, ChatNotConfigured) != TextOutput(text, ChatRaised)
  {
    var a, b := TextOutput(text, ChatNotConfigured), TextOutput(text, ChatRaised);
    assert a[|a| - |text|..] == text;
    assert b[|b| - |text|..] == text;
    assert a[0..6] != b[0..6] by {
      assert a[4] == 'O' && b[4] == 'E';
    }
  }

  /** `INSERT INTO groq_logs (type, input, output, user_id, created_at)`. */
  method InsertGroqLog(db: Database, kind: string, input: string, output: string, userId: Option<string>, now: string)
    returns (r: Result<GroqLog>)
    requires db.Valid()
    modifies db`groqLogs
    ensures db.Valid()
    ensures GroqLogs !in db.tables ==> r == Err(NoSuchTable(GroqLogs)) && db.groqLogs == old(db.groqLogs)
    ensures GroqLogs in db.tables ==>
              && r == Ok(GroqLog(|old(db.groqLogs)| + 1, kind, input, output, userId, now))
              && db.groqLogs == old(db.groqLogs) + [r.value]
  {
    if GroqLogs !in db.tables {
      return Err(NoSuchTable(GroqLogs));
    }
    var row := GroqLog(|db.groqLogs| + 1, kind, input, output, userId, now);
    db.groqLogs := db.groqLogs + [row];
    r := Ok(row);
  }

  /** `POST /groq/text`: answers `{output}` and logs one "text" row. */
  method GroqText(db: Database, text: string, userId: Option<string>, chat: Chat, now: string) returns (r: Result<string>)
    requires db.Valid()
    modifies db`groqLogs
    ensures db.Valid()
    ensures GroqLogs !in db.tables ==> r == Err(NoSuchTable(GroqLogs)) && db.groqLogs == old(db.groqLogs)
    ensures GroqLogs in db.tables ==>
              && r == Ok(TextOutput(text, chat))
              && db.groqLogs == old(db.groqLogs) + [GroqLog(|old(db.groqLogs)| + 1, "text", text, r.value, userId, now)]
  {
    var output := TextOutput(text, chat);
    var logged := InsertGroqLog(db, "text", text, output, userId, now);
    if logged.Err? {
      return Err(logged.error);
    }
    r := Ok(output);
  }

  /** The transcript step of `groq_audio`: the no-client message, the
      extracted and filtered text, or the failure message. */
  method Transcribe(filename: string, byteCount: nat, transcriber: Transcriber) returns (transcript: string)
    ensures transcript == AudioTranscript(filename, byteCount, transcriber)
  {
    match transcriber {
      case NotConfigured =>
        transcript := NotConfiguredTranscript(filename, byteCount);
      case CallRaised =>
        transcript := FailedTranscript(filename);
      case Responded(obj, repr) =>
        var extracted := ExtractText(obj, repr);
        if extracted.Raised? {
          transcript := FailedTranscript(filename);
        } else {
          transcript := FilterTranscript(if extracted.text.Some? then extracted.text.value else "");
        }
    }
  }

  /** `POST /groq/audio`: answers `{transcript}` and logs one "audio" row whose
      input is the file name. */
  method GroqAudio(db: Database, filename: string, byteCount: nat, userId: Option<string>, transcriber: Transcriber, now: string)
    returns (r: Result<string>)
    requires db.Valid()
    modifies db`groqLogs
    ensures db.Valid()
    ensures GroqLogs !in db.tables ==> r == Err(NoSuchTable(GroqLogs)) && db.groqLogs == old(db.groqLogs)
    ensures GroqLogs in db.tables ==>
              && r == Ok(AudioTranscript(filename, byteCount, transcriber))
              && db.groqLogs == old(db.groqLogs) + [GroqLog(|old(db.groqLogs)| + 1, "audio", filename, r.value, userId, now)]
  {
    var transcript := Transcribe(filename, byteCount, transcriber);
    var logged := InsertGroqLog(db, "audio", filename, transcript, userId, now);
    if logged.Err? {
      return Err(logged.error);
    }
    r := Ok(transcript);
  }
}
