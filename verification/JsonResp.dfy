/**
  The response envelope (`JsonResp`): normalised request data, an ordered list
  of error messages, an opaque response payload, and a status that becomes
  "success" the first time the envelope is exported with no errors pending.

  Every operation is a pure function from the old envelope to the new one.
 */
module JsonResp {
  import opened Wrappers
  import PhpString

  /** A key of a PHP array. */
  datatype Key = Index(n: int) | Name(s: string)

  /** The PHP values the envelope distinguishes. `Other` stands for every
      value it never inspects beyond "is it empty": objects, resources and
      non-zero floats; none of them is empty. */
  datatype Value =
    | Null
    | Bool(b: bool)
    | Int(i: int)
    | Str(s: string)
    | Arr(entries: seq<Entry>)
    | Other(tag: nat)

  /** One key/value pair of an ordered PHP array. */
  datatype Entry = Entry(key: Key, val: Value)

  datatype Status = StatusError | StatusSuccess

  function StatusText(s: Status): string {
    match s
    case StatusError => "error"
    case StatusSuccess => "success"
  }

  datatype Envelope = Envelope(data: seq<Entry>, status: Status, errors: seq<string>, response: Value)

  /** The state of a freshly allocated envelope, before its constructor body runs. */
  const Blank := Envelope([], StatusError, [], Null)

  /** PHP `empty($v)` over the values modelled here. */
  predicate IsEmpty(v: Value) {
    match v
    case Null => true
    case Bool(b) => !b
    case Int(i) => i == 0
    case Str(s) => s == "" || s == "0"
    case Arr(entries) => |entries| == 0
    case Other(_) => false
  }

  // ---------------------------------------------------------------------------
  // Data normalisation

  /** One step of `setData`: strings are trimmed, and a trimmed string that is
      exactly "true" or "false" becomes the boolean; other values pass through. */
  function NormalizeValue(v: Value): (r: Value)
    ensures !v.Str? ==> r == v
    ensures v.Str? ==> (r == Bool(true) <==> PhpString.Trim(v.s) == "true")
    ensures v.Str? ==> (r == Bool(false) <==> PhpString.Trim(v.s) == "false")
    ensures v.Str? && r.Str? ==> r.s == PhpString.Trim(v.s)
    ensures v.Str? ==> r.Str? || r.Bool?
  {
    match v
    case Str(s) =>
      var t := PhpString.Trim(s);
      if t == "false" then Bool(false)
      else if t == "true" then Bool(true)
      else Str(t)
    case _ => v
  }

  /** The loop of `setData`: every entry keeps its key and its position, and
      its value is normalised on its own. */
  function NormalizeData(d: seq<Entry>): (r: seq<Entry>)
    ensures |r| == |d|
    ensures forall k :: 0 <= k < |d| ==> r[k].key == d[k].key && r[k].val == NormalizeValue(d[k].val)
  {
    if |d| == 0 then [] else [Entry(d[0].key, NormalizeValue(d[0].val))] + NormalizeData(d[1..])
  }

  /** A string wrapped in trim characters is stored without them, or as the
      boolean it spells when it is exactly "true" or "false". */
  lemma NormalizePaddedString(p: string, m: string, q: string)
    requires PhpString.AllSpace(p) && PhpString.AllSpace(q) && PhpString.NoEdgeSpace(m)
    ensures m == "true" ==> NormalizeValue(Str(p + m + q)) == Bool(true)
    ensures m == "false" ==> NormalizeValue(Str(p + m + q)) == Bool(false)
    ensures m != "true" && m != "false" ==> NormalizeValue(Str(p + m + q)) == Str(m)
  {
    PhpString.TrimUnique(p, m, q);
  }

  /** A value that `setData` can store is one normalisation leaves alone. */
  lemma NormalizeValueIdempotent(v: Value)
    ensures NormalizeValue(NormalizeValue(v)) == NormalizeValue(v)
  {
    if v.Str? {
      PhpString.TrimIdempotent(v.s);
    }
  }

  /** Feeding `getData()` back into `setData` changes nothing. */
  lemma NormalizeDataIdempotent(d: seq<Entry>)
    ensures NormalizeData(NormalizeData(d)) == NormalizeData(d)
  {
    var n := NormalizeData(d);
    var nn := NormalizeData(n);
    forall k | 0 <= k < |n|
      ensures nn[k] == n[k]
    {
      NormalizeValueIdempotent(d[k].val);
    }
  }

  // ---------------------------------------------------------------------------
  // Operations

  /** `new JsonResp($data)`. */
  function NewEnvelope(d: seq<Entry>): (r: Envelope)
    ensures r.data == NormalizeData(d)
    ensures r.status == StatusError && r.errors == [] && r.response == Null
  {
    SetData(Blank, d)
  }

  /** `setData`: the stored data is replaced wholesale by the normalised input. */
  function SetData(e: Envelope, d: seq<Entry>): (r: Envelope)
    ensures r.data == NormalizeData(d)
    ensures r.status == e.status && r.errors == e.errors && r.response == e.response
  {
    e.(data := NormalizeData(d))
  }

  /** `getData`. */
  function GetData(e: Envelope): seq<Entry> {
    e.data
  }

  /** `getData` returns the normalised data `setData` stored, and storing it
      again changes nothing. */
  lemma GetDataAfterSetData(e: Envelope, d: seq<Entry>)
    ensures GetData(SetData(e, d)) == NormalizeData(d)
    ensures SetData(SetData(e, d), GetData(SetData(e, d))) == SetData(e, d)
  {
    NormalizeDataIdempotent(d);
  }

  /** `clearData`: the data becomes the empty array. */
  function ClearData(e: Envelope): (r: Envelope)
    ensures |r.data| == 0
    ensures r.status == e.status && r.errors == e.errors && r.response == e.response
  {
    e.(data := [])
  }

  /** `addErrMsg`: the message goes at the end of the list, after all earlier ones. */
  function AddErrMsg(e: Envelope, msg: string): (r: Envelope)
    ensures |r.errors| == |e.errors| + 1
    ensures r.errors[..|e.errors|] == e.errors && r.errors[|e.errors|] == msg
    ensures r.data == e.data && r.status == e.status && r.response == e.response
  {
    e.(errors := e.errors + [msg])
  }

  /** `setErrMsg`: the list is replaced by exactly the given one. */
  function SetErrMsg(e: Envelope, msgs: seq<string>): (r: Envelope)
    ensures r.errors == msgs
    ensures r.data == e.data && r.status == e.status && r.response == e.response
  {
    e.(errors := msgs)
  }

  /** `clearErrMsg`: no error remains. */
  function ClearErrMsg(e: Envelope): (r: Envelope)
    ensures |r.errors| == 0
    ensures r.data == e.data && r.status == e.status && r.response == e.response
  {
    e.(errors := [])
  }

  /** `isSuccess`. */
  function IsSuccess(e: Envelope): (r: bool)
    ensures r <==> ErrorCount(e) == 0
  {
    |e.errors| == 0
  }

  /** `isError`. */
  function IsError(e: Envelope): (r: bool)
    ensures r <==> !IsSuccess(e)
  {
    |e.errors| != 0
  }

  /** `errorCount`. */
  function ErrorCount(e: Envelope): nat {
    |e.errors|
  }

  /** `getResponse`. */
  function GetResponse(e: Envelope): Value {
    e.response
  }

  /** `setResponse`: the payload is stored as given, nothing else changes. */
  function SetResponse(e: Envelope, v: Value): (r: Envelope)
    ensures GetResponse(r) == v
    ensures r.data == e.data && r.status == e.status && r.errors == e.errors
  {
    e.(response := v)
  }

  /** The array `returnResponse` builds; `data` and `response` are absent
      (None) when PHP's `empty` removed them. */
  datatype Export = Export(status: string, errorMsg: seq<string>, data: Option<seq<Entry>>, response: Option<Value>)

  /** The result of `returnResponse`: the envelope after the call, whose status
      may have been promoted, and the exported array. */
  datatype Returned = Returned(env: Envelope, out: Export)

  /** `returnResponse()` (array form). An empty error list at call time promotes
      the stored status to success for good; the export reports the stored
      status, the error list, and the data and payload only when non-empty. */
  function ReturnResponse(e: Envelope): (r: Returned)
    ensures |e.errors| == 0 ==> r.env.status == StatusSuccess
    ensures |e.errors| > 0 ==> r.env.status == e.status
    ensures r.env.data == e.data && r.env.errors == e.errors && r.env.response == e.response
    ensures r.out.status == StatusText(r.env.status)
    ensures r.out.errorMsg == e.errors
    ensures r.out.data.Some? <==> |e.data| > 0
    ensures r.out.data.Some? ==> r.out.data.value == e.data
    ensures r.out.response.Some? <==> !IsEmpty(e.response)
    ensures r.out.response.Some? ==> r.out.response.value == e.response
  {
    var e' := if |e.errors| == 0 then e.(status := StatusSuccess) else e;
    var data := if |e'.data| == 0 then None else Some(e'.data);
    var response := if IsEmpty(e'.response) then None else Some(e'.response);
    Returned(e', Export(StatusText(e'.status), e'.errors, data, response))
  }

  // ---------------------------------------------------------------------------
  // Properties of sequences of calls

  /** The public operations of the envelope, as a caller issues them. */
  datatype Call =
    | CallSetData(d: seq<Entry>)
    | CallClearData
    | CallAddErrMsg(msg: string)
    | CallSetErrMsg(msgs: seq<string>)
    | CallClearErrMsg
    | CallSetResponse(v: Value)
    | CallReturnResponse

  function Step(e: Envelope, c: Call): Envelope {
    match c
    case CallSetData(d) => SetData(e, d)
    case CallClearData => ClearData(e)
    case CallAddErrMsg(m) => AddErrMsg(e, m)
    case CallSetErrMsg(ms) => SetErrMsg(e, ms)
    case CallClearErrMsg => ClearErrMsg(e)
    case CallSetResponse(v) => SetResponse(e, v)
    case CallReturnResponse => ReturnResponse(e).env
  }

  /** The envelope after issuing `calls` in order. */
  function Run(e: Envelope, calls: seq<Call>): Envelope
    decreases |calls|
  {
    if |calls| == 0 then e else Step(Run(e, calls[..|calls| - 1]), calls[|calls| - 1])
  }

  /** An export with no errors pending happened during `calls`. */
  predicate ExportedClean(e: Envelope, calls: seq<Call>) {
    exists i :: 0 <= i < |calls| && calls[i] == CallReturnResponse && |Run(e, calls[..i]).errors| == 0
  }

  /** An export happened clean during `init + [c]` exactly when it happened
      during `init`, or `c` is an export and `init` left no error pending. */
  lemma ExportedCleanSnoc(e: Envelope, init: seq<Call>, c: Call)
    ensures ExportedClean(e, init + [c]) <==>
      ExportedClean(e, init) || (c == CallReturnResponse && |Run(e, init).errors| == 0)
  {
    var calls := init + [c];
    assert calls[..|init|] == init;
    assert forall i :: 0 <= i < |init| ==> calls[..i] == init[..i] && calls[i] == init[i];
  }

  /** One call moves the status to success exactly when it is an export with
      no error pending, and never moves it back. */
  lemma StepStatus(e: Envelope, c: Call)
    ensures Step(e, c).status == StatusSuccess <==>
      e.status == StatusSuccess || (c == CallReturnResponse && |e.errors| == 0)
  {
  }

  /** The status is sticky: it reads success exactly when it already did, or
      some export during the calls found the error list empty. No call ever
      sets it back to error. */
  lemma {:induction false} StatusSticky(e: Envelope, calls: seq<Call>)
    ensures Run(e, calls).status == StatusSuccess <==> e.status == StatusSuccess || ExportedClean(e, calls)
    decreases |calls|
  {
    if |calls| > 0 {
      var n := |calls| - 1;
      var init := calls[..n];
      StatusSticky(e, init);
      assert calls == init + [calls[n]];
      ExportedCleanSnoc(e, init, calls[n]);
      StepStatus(Run(e, init), calls[n]);
    }
  }

  /** Appending messages one by one is the same as replacing the list with the
      old list followed by the messages. */
  lemma {:induction false} AddErrMsgsAppend(e: Envelope, msgs: seq<string>)
    ensures Run(e, AddCalls(msgs)) == SetErrMsg(e, e.errors + msgs)
    decreases |msgs|
  {
    if |msgs| == 0 {
      assert e.errors + msgs == e.errors;
    } else {
      var n := |msgs| - 1;
      AddErrMsgsAppend(e, msgs[..n]);
      assert AddCalls(msgs)[..n] == AddCalls(msgs[..n]);
      assert e.errors + msgs[..n] + [msgs[n]] == e.errors + msgs;
    }
  }

  function AddCalls(msgs: seq<string>): (r: seq<Call>)
    ensures |r| == |msgs|
    ensures forall k :: 0 <= k < |msgs| ==> r[k] == CallAddErrMsg(msgs[k])
  {
    if |msgs| == 0 then [] else AddCalls(msgs[..|msgs| - 1]) + [CallAddErrMsg(msgs[|msgs| - 1])]
  }

  /** The error count is the number of messages added since the list was last
      cleared or set, on top of what it held then. */
  lemma ErrorCountAfterAdds(e: Envelope, msgs: seq<string>)
    ensures ErrorCount(Run(e, AddCalls(msgs))) == ErrorCount(e) + |msgs|
    ensures IsError(Run(e, AddCalls(msgs))) <==> IsError(e) || |msgs| > 0
  {
    AddErrMsgsAppend(e, msgs);
  }

  /** Error-list calls leave the data and the payload alone, and data calls
      leave the error list alone. */
  lemma CallsAreIndependent(e: Envelope, c: Call)
    ensures !c.CallSetData? && !c.CallClearData? ==> Step(e, c).data == e.data
    ensures !c.CallAddErrMsg? && !c.CallSetErrMsg? && !c.CallClearErrMsg? ==> Step(e, c).errors == e.errors
    ensures !c.CallSetResponse? ==> Step(e, c).response == e.response
  {
  }
}
