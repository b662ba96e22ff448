/** The streaming chat protocol between the backend and the frontend: each
    frame is a line `data: <json>` followed by a blank line. JSON encoding is
    a parameter `dumps` of the model, JSON decoding a parameter `parse`. */
module Protocol {

  /** The fields of a frame's JSON object the frontend reads; an absent or
      falsy field is `""` or `false`. */
  datatype Payload = Payload(content: string, done: bool, error: string)

  /** The three frames the backend emits. */
  datatype Frame = ContentFrame(content: string) | DoneFrame | ErrorFrame(error: string)

  const DataPrefix: string := "data: "

  /** `{"content": c}`, `{"done": true}` and `{"error": e}`. */
  function PayloadOf(f: Frame): (p: Payload)
    // each object sets exactly the one field that names its kind
    ensures p.done <==> f.DoneFrame?
    ensures f.ContentFrame? ==> p.content == f.content && p.error == ""
    ensures f.ErrorFrame? ==> p.error == f.error && p.content == ""
    ensures f.DoneFrame? ==> p.content == "" && p.error == ""
  {
    match f
    case ContentFrame(c) => Payload(c, false, "")
    case DoneFrame => Payload("", true, "")
    case ErrorFrame(e) => Payload("", false, e)
  }

  /** `f"data: {json.dumps(...)}\n\n"` */
  function Wire(f: Frame, dumps: Payload -> string): (w: string)
    // the `data: ` prefix and the blank line peel off to give the JSON text
    ensures |w| >= |DataPrefix| + 2
    ensures w[..|DataPrefix|] == DataPrefix && w[|w| - 2..] == "\n\n"
    ensures w[|DataPrefix|..|w| - 2] == dumps(PayloadOf(f))
  {
    DataPrefix + dumps(PayloadOf(f)) + "\n\n"
  }

  /** The bytes of a run of frames, back to back. */
  function WireAll(frames: seq<Frame>, dumps: Payload -> string): string
    decreases |frames|
  {
    if frames == [] then "" else Wire(frames[0], dumps) + WireAll(frames[1..], dumps)
  }
}
