/** The chunks of a response stream, and the one that ends it. */
module Wire {
  import opened ByteStrings
  import opened Generation
  import opened ChatStreams

  datatype WireReason = WireEog | WireLength | WireStop | WireCancelled | WireToolCalls

  datatype Stats = Stats(promptTokens: nat, completionTokens: nat, cachedPromptTokens: nat)

  datatype Chunk = Text(text: Bytes) | Last(reason: WireReason, stats: Stats, calls: seq<ToolCall>)

  function ToWire(reason: FinishReason): WireReason
  {
    match reason
    case Eog => WireEog
    case Length => WireLength
    case Stop => WireStop
    case Cancel => WireCancelled
  }

  /** Calls survive only a generation that ran to completion, and then they are the reason. */
  function FinishChunk(reason: FinishReason, stats: Stats, calls: seq<ToolCall>): (chunk: Chunk)
    ensures chunk.Last? && chunk.stats == stats
    ensures chunk.calls != [] <==> chunk.reason == WireToolCalls
    ensures chunk.reason == WireToolCalls <==> reason in {Eog, Stop} && calls != []
    ensures chunk.reason == WireToolCalls ==> chunk.calls == calls
    ensures chunk.reason == WireEog <==> reason == Eog && calls == []
    ensures chunk.reason == WireStop <==> reason == Stop && calls == []
    ensures chunk.reason == WireLength <==> reason == Length
    ensures chunk.reason == WireCancelled <==> reason == Cancel
  {
    var kept := if reason == Eog || reason == Stop then calls else [];
    Last(if kept == [] then ToWire(reason) else WireToolCalls, stats, kept)
  }

  method MakeFinishChunk(reason: FinishReason, stats: Stats, toolCalls: seq<ToolCall>) returns (chunk: Chunk)
    ensures chunk == FinishChunk(reason, stats, toolCalls)
  {
    var calls := toolCalls;
    var ranToCompletion := reason == Eog || reason == Stop;
    if !ranToCompletion {
      calls := [];
    }
    chunk := Last(if calls == [] then ToWire(reason) else WireToolCalls, stats, []);
    for i := 0 to |calls|
      invariant chunk == Last(if calls == [] then ToWire(reason) else WireToolCalls, stats, calls[..i])
    {
      chunk := chunk.(calls := chunk.calls + [calls[i]]);
    }
  }
}
