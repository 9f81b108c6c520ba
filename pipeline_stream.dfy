/** The in-memory stream a pipeline stage writes into and the next stage drains. */
module PipelineStream {

  /** What `joint_data` writes after every message. */
  const Terminator: string := "\n\r"

  /** Every message followed by the terminator, oldest first. */
  function Joined(msgs: seq<string>): (r: string)
  {
    if msgs == [] then "" else Joined(msgs[..|msgs| - 1]) + (msgs[|msgs| - 1] + Terminator)
  }

  /** The sum over the messages of their length plus two. */
  function TotalLength(msgs: seq<string>): (r: nat)
  {
    if msgs == [] then 0 else |msgs[0]| + 2 + TotalLength(msgs[1..])
  }

  /** Joining two buffers one after the other is joining their concatenation. */
  lemma {:induction false} JoinedAppend(a: seq<string>, b: seq<string>)
    ensures Joined(a + b) == Joined(a) + Joined(b)
    decreases |b|
  {
    if b == [] {
      assert a + b == a;
    } else {
      var init := b[..|b| - 1];
      var last := b[|b| - 1];
      assert (a + b)[..|a + b| - 1] == a + init;
      assert (a + b)[|a + b| - 1] == last;
      JoinedAppend(a, init);
    }
  }

  /** The joined text is two characters longer than its messages per message. */
  lemma {:induction false} JoinedLength(msgs: seq<string>)
    ensures |Joined(msgs)| == TotalLength(msgs)
    decreases |msgs|
  {
    if msgs != [] {
      assert msgs == [msgs[0]] + msgs[1..];
      JoinedAppend([msgs[0]], msgs[1..]);
      assert Joined([msgs[0]]) == "" + (msgs[0] + Terminator);
      JoinedLength(msgs[1..]);
    }
  }

  /** `PipeLineStream`: a buffer of messages. */
  class PipeLineStream {
    var data: seq<string>

    /** `new`: an empty buffer. */
    constructor ()
      ensures data == []
    {
      data := [];
    }

    /** `input`: the message goes at the end of the buffer. */
    method Input(msg: string)
      modifies this
      ensures data == old(data) + [msg]
    {
      data := data + [msg];
    }

    /** `joint_data`: the buffer rendered without being changed. */
    method JointData() returns (result: string)
      ensures result == Joined(data)
    {
      result := "";
      for i := 0 to |data|
        invariant result == Joined(data[..i])
      {
        assert data[..i + 1][..i] == data[..i];
        result := result + (data[i] + Terminator);
      }
      assert data[..|data|] == data;
    }

    /** `output`: the rendered buffer, which is then emptied. */
    method Output() returns (result: string)
      modifies this
      ensures result == Joined(old(data)) && data == []
    {
      result := JointData();
      data := [];
    }
  }

  /** Two messages in, then two outputs: the first is both messages, each terminated; the
      second finds the buffer already drained. */
  method TwoMessagesThenDrain() returns (first: string, second: string)
    ensures first == "Hello, world!\n\rHello, world!\n\r"
    ensures second == ""
  {
    var stream := new PipeLineStream();
    stream.Input("Hello, world!");
    stream.Input("Hello, world!");
    first := stream.Output();
    second := stream.Output();
    assert ["Hello, world!", "Hello, world!"][..1] == ["Hello, world!"];
  }
}
