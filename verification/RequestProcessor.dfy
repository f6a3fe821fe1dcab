/**
 * The request processor as an object: one set of fields shared by the three callbacks and
 * by sending a request, with the handlers behind it when it serves requests.
 */
module RequestProcessor {
  import opened Bytes
  import opened Objects
  import opened Messages
  import opened Receiver
  import opened Requests
  import opened RequestHandlers
  import opened HashLinks
  import opened HashTable
  import Lookup

  lemma {:induction false} CStringIs(text: seq<byte>, n: nat)
    requires n <= |text| && 0 !in text[..n] && (n < |text| ==> text[n] == 0)
    ensures CString(text) == text[..n]
  {
    if n > 0 {
      assert text[1..][..n - 1] == text[..n][1..];
      CStringIs(text[1..], n - 1);
    }
  }

  /** memcpy, and a NUL behind. */
  method CopyTerminated(target: array<byte>, text: seq<byte>)
    requires |text| < target.Length
    modifies target
    ensures target[..|text| + 1] == text + [0]
  {
    var i := 0;
    while i < |text|
      invariant i <= |text| && target[..i] == text[..i]
    {
      target[i] := text[i];
      i := i + 1;
    }
    target[|text|] := 0;
    assert target[..|text|] == text;
  }

  class Processor {
    const incoming: ServerHandlers?  // behind the incoming callbacks, unless those are NULL
    const errorStr: array<byte>
    var currentId: u16
    var objectNum: byte
    var notifyError: bool
    var bindings: Bindings
    var calls: seq<UserCall>  // user callbacks made
    var out: seq<byte>        // bytes sent
    var defined: bool         // false once C leaves open what happens

    ghost var errorText: seq<byte>

    ghost function Others(): set<object>
    {
      if incoming == null then {}
      else {incoming, incoming.heap, incoming.objects, incoming.handlers}
    }

    ghost function Items(): seq<Handle<Handler>>
      reads Others()
    {
      if incoming == null then [] else incoming.handlers.items
    }

    ghost function Buckets(): set<object>
      reads Others()
    {
      if incoming == null then {} else {incoming.handlers.buckets}
    }

    ghost predicate Valid()
      reads this, errorStr, Others(), Buckets(), Items()
    {
      && errorStr.Length == ERROR_STR + 1
      && |errorText| <= ERROR_STR
      && errorStr[..|errorText| + 1] == errorText + [0]
      && (incoming != null ==> incoming.Valid())
    }

    ghost function State(): Peer
      requires Valid()
      reads this, errorStr, Others(), Buckets(), Items()
    {
      Peer(currentId, objectNum, notifyError, errorText, bindings,
           if incoming == null then None else Some(incoming.State()), calls, out, defined)
    }

    ghost function Names(): Handlers
      reads Others(), Items()
    {
      if incoming == null then map[] else Entries(incoming.handlers.items)
    }

    /** proto_req_init_processor. */
    constructor (incoming: ServerHandlers?)
      requires incoming != null ==> incoming.Valid()
      ensures Valid() && fresh(errorStr) && errorStr.Length == 64 && this.incoming == incoming
      ensures State() == ClientStart().(incoming := if incoming == null then None else Some(incoming.State()))
    {
      this.incoming := incoming;
      errorStr := new byte[ERROR_STR + 1](_ => 0);
      currentId, objectNum, notifyError, bindings := 0, 0, false, Bindings(false, false, false);
      calls, out, defined, errorText := [], [], true, [];
    }

    /** proto_req_new_request. */
    method NewRequest(h: Header)
      requires Valid()
      modifies this, errorStr, Others()
      ensures Valid() && State() == OnStart(old(State()), h) && Names() == old(Names())
    {
      hide Encode, Answer, ResponseBytes, Served, CString, Entries, ServerHandlers.State, ServerHandlers.Valid;
      if !defined {
        return;
      }
      if !IsResponse(h.flags) {
        if incoming != null {
          incoming.RequestNew();
        }
      }
    }

    /** Copies an error text, and a NUL, over the previous one. */
    method SetError(text: seq<byte>)
      requires Valid()
      modifies this`errorText, this`notifyError, this`defined, errorStr
      ensures Valid()
      ensures State() == if |text| > ERROR_STR then old(State()).(defined := false)
                         else old(State()).(errorStr := text, notifyError := true)
    {
      hide Encode, Answer, ResponseBytes, Served, CString, Entries, ServerHandlers.State, ServerHandlers.Valid;
      if |text| > ERROR_STR {
        defined := false;
        return;
      }
      CopyTerminated(errorStr, text);
      notifyError := true;
      errorText := text;
    }

    /** The error text as the error callback sees it. */
    method ErrorString() returns (text: seq<byte>)
      requires Valid()
      ensures text == CString(errorText)
    {
      text := [];
      var i := 0;
      assert errorStr[..|errorText| + 1][|errorText|] == 0;
      assert forall j :: 0 <= j < |errorText| ==> errorStr[..|errorText| + 1][j] == errorText[j];
      while errorStr[i] != 0
        invariant i <= |errorText| && text == errorText[..i] && 0 !in text
        decreases |errorText| - i
      {
        text := text + [errorStr[i]];
        i := i + 1;
      }
      CStringIs(errorText, i);
    }

    /** proto_req_object_callback. */
    method NewObject(h: Header, received: Received)
      requires Valid()
      modifies this, errorStr, Others()
      ensures Valid() && State() == OnObject(old(State()), h, received) && Names() == old(Names())
    {
      hide Encode, Answer, ResponseBytes, Served, CString, Entries, ServerHandlers.State, ServerHandlers.Valid;
      if !defined {
        return;
      }
      if IsResponse(h.flags) {
        if currentId != h.id {
          return;
        }
        if IsError(h.flags) {
          if objectNum == 0 {
            if !received.Readable? {
              defined := false;
              return;
            }
            var error := Lookup.FirstMatch(received.properties, KEY_ERROR, None);
            if error.Some? {
              SetError(error.value.value);
            }
          }
        } else if bindings.onObject {
          if !received.Readable? {
            defined := false;
            return;
          }
          calls := calls + [ObjectArrived(objectNum, received.properties)];
          objectNum := (objectNum + 1) % 0x100;
        }
      } else if incoming != null {
        if received.Readable? {
          incoming.RequestObject(received.properties);
        } else if incoming.objectsNum < MAX_RECEIVING_OBJECTS {
          defined := false;
        }
      }
    }

    /** proto_req_recv. */
    method Recv(h: Header) returns (err: Option<Text>)
      requires Valid()
      modifies this, errorStr, Others()
      ensures Valid() && (State(), err) == OnComplete(old(Names()), old(State()), h) && Names() == old(Names())
    {
      hide Encode, Answer, ResponseBytes, Served, CString, Entries, ServerHandlers.State, ServerHandlers.Valid,
           RequestHandlers.Found;
      if !defined {
        return None;
      }
      if IsResponse(h.flags) {
        if currentId != h.id {
          return Some(UnknownRequestId());
        }
        if notifyError {
          if bindings.onError {
            var text := ErrorString();
            calls := calls + [Failed(text)];
          }
          notifyError := false;
        } else if bindings.onResponse {
          calls := calls + [Succeeded];
        } else {
          defined := false;
        }
        return None;
      }
      if incoming == null {
        defined := false;
        return None;
      }
      var sent, error, _, _, _, _ := incoming.Complete(h.id);
      out := out + sent;
      return error;
    }

    /** The socket, as the receiver writes error responses to it. */
    method Write(bytes: seq<byte>)
      requires Valid()
      modifies this`out
      ensures Valid() && State() == OnSend(old(State()), bytes).0 && Names() == old(Names())
    {
      if defined {
        out := out + bytes;
      }
    }

    /** proto_req_send_request, on a socket that takes the bytes or does not. */
    method Send(o: Object, bindings: Bindings, connected: bool) returns (code: byte)
      requires Valid()
      modifies this
      ensures Valid() && code == if connected then 0 else 3
      ensures State() == var u := SendRequest(old(State()), o, bindings); if connected then u else u.(out := old(out))
    {
      hide Encode, Answer, ResponseBytes, Served, CString, Entries, ServerHandlers.State, ServerHandlers.Valid;
      objectNum := 0;
      notifyError := false;
      this.bindings := bindings;
      currentId := Add16(currentId, 1);
      if !connected {
        return 3;
      }
      out := out + Encode(Message(0, currentId, [o]));
      code := 0;
    }
  }
}
