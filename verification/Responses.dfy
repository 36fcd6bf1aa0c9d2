/** The response writer that remembers the status the metrics and the breaker are told. */
module Responses {
  import opened Prelude

  /** `sent` is what reached the wrapped writer: a status line, or body bytes. */
  datatype Output = Header(code: nat) | Data(bytes: seq<bv8>)

  class StatusRecorder {
    var statusCode: nat
    var wroteHeader: bool
    var sent: seq<Output>

    ghost predicate Valid()
      reads this
    {
      (statusCode, wroteHeader) == match FirstStatus(sent) case None => (0, false) case Some(code) => (code, true)
    }

    constructor ()
      ensures Valid() && sent == []
    {
      statusCode, wroteHeader, sent := 0, false, [];
    }

    method WriteHeader(code: nat)
      requires Valid()
      modifies this
      ensures Valid() && sent == old(sent) + [Header(code)]
    {
      if !wroteHeader {
        statusCode := code;
        wroteHeader := true;
      }
      FirstStatusSnoc(sent, Header(code));
      sent := sent + [Header(code)];
    }

    method Write(data: seq<bv8>)
      requires Valid()
      modifies this
      ensures Valid()
      ensures sent == old(sent) + (if FirstStatus(old(sent)).None? then [Header(200)] else []) + [Data(data)]
    {
      if !wroteHeader {
        WriteHeader(200);
      }
      FirstStatusSnoc(sent, Data(data));
      sent := sent + [Data(data)];
    }

    method Status() returns (code: nat)
      requires Valid()
      ensures code == match FirstStatus(sent) case None => 0 case Some(c) => c
    {
      code := statusCode;
    }
  }

  /** The first status line written, whatever is written after it. */
  function FirstStatus(sent: seq<Output>): (first: Option<nat>)
    ensures first.None? <==> forall i :: 0 <= i < |sent| ==> sent[i].Data?
    ensures forall i :: 0 <= i < |sent| && sent[i].Header? && (forall j :: 0 <= j < i ==> sent[j].Data?) ==>
              first == Some(sent[i].code)
  {
    if sent == [] then None
    else if sent[0].Header? then Some(sent[0].code)
    else FirstStatus(sent[1..])
  }

  lemma {:induction false} FirstStatusSnoc(sent: seq<Output>, o: Output)
    ensures FirstStatus(sent + [o]) ==
              if FirstStatus(sent).Some? then FirstStatus(sent) else if o.Header? then Some(o.code) else None
  {
    if sent == [] {
      assert [o][1..] == [];
      assert sent + [o] == [o];
    } else {
      assert (sent + [o])[1..] == sent[1..] + [o];
      FirstStatusSnoc(sent[1..], o);
    }
  }
}
