/**
 * Subprotocol selection for a new websocket connection (server.js, handleProtocols).
 *
 * The client offers an ordered list of subprotocol tokens. The relay walks the list
 * from the front and settles on the first token that is one of the two it speaks,
 * "text" or "json"; when no offered token is supported the answer is `false`,
 * modelled here as `Rejected`.
 */
module Negotiation {

  const TextProtocol: string := "text"
  const JsonProtocol: string := "json"

  /** The tokens the relay understands. */
  predicate Supported(token: string) {
    token == TextProtocol || token == JsonProtocol
  }

  /** Outcome of the selection: a chosen token, or the `false` sentinel. */
  datatype Selection = Selected(protocol: string) | Rejected

  /** No token of `offered` at a position in [from, to) is supported. */
  predicate NoneSupported(offered: seq<string>, from: nat, to: nat)
    requires from <= to <= |offered|
  {
    forall j :: from <= j < to ==> !Supported(offered[j])
  }

  /** Position `k` holds the first supported token at or after `from`. */
  predicate FirstSupportedFrom(offered: seq<string>, from: nat, k: nat)
  {
    from <= k < |offered| && Supported(offered[k]) && NoneSupported(offered, from, k)
  }

  /**
   * The loop of handleProtocols, from index `i` onwards: "text" is tested before
   * "json" at each position, and the scan stops at the first hit.
   */
  function Scan(offered: seq<string>, i: nat): (r: Selection)
    requires i <= |offered|
    ensures r == Rejected <==> NoneSupported(offered, i, |offered|)
    ensures r.Selected? ==> exists k: nat :: FirstSupportedFrom(offered, i, k) && offered[k] == r.protocol
    decreases |offered| - i
  {
    if i == |offered| then Rejected
    else if offered[i] == TextProtocol then Selected(TextProtocol)
    else if offered[i] == JsonProtocol then Selected(JsonProtocol)
    else
      Scan(offered, i + 1)
  }

  /**
   * handleProtocols: the client's first offered token among "text" and "json",
   * or `Rejected` when it offers neither.
   */
  function HandleProtocols(offered: seq<string>): (r: Selection)
    ensures r == Rejected <==> forall j :: 0 <= j < |offered| ==> !Supported(offered[j])
    ensures r.Selected? ==> Supported(r.protocol)
    ensures r.Selected? ==>
              exists k :: 0 <= k < |offered| && offered[k] == r.protocol
                          && forall j :: 0 <= j < k ==> !Supported(offered[j])
  {
    Scan(offered, 0)
  }

  /** Keeps the supported tokens of `offered`, in order. */
  function SupportedTokens(offered: seq<string>): (ts: seq<string>)
    ensures forall t :: t in ts ==> Supported(t)
  {
    if |offered| == 0 then []
    else if Supported(offered[0]) then [offered[0]] + SupportedTokens(offered[1..])
    else SupportedTokens(offered[1..])
  }

  /**
   * Reference definition: the selection is the head of the client's supported
   * tokens, and `Rejected` exactly when that list is empty.
   */
  lemma {:induction false} SelectionIsFirstSupportedToken(offered: seq<string>)
    ensures HandleProtocols(offered)
            == if |SupportedTokens(offered)| == 0 then Rejected
               else Selected(SupportedTokens(offered)[0])
  {
    ScanMatchesTokens(offered, 0);
  }

  lemma {:induction false} ScanMatchesTokens(offered: seq<string>, i: nat)
    requires i <= |offered|
    ensures Scan(offered, i)
            == if |SupportedTokens(offered[i..])| == 0 then Rejected
               else Selected(SupportedTokens(offered[i..])[0])
    decreases |offered| - i
  {
    if i < |offered| {
      assert offered[i..][1..] == offered[i + 1..];
      if !Supported(offered[i]) {
        ScanMatchesTokens(offered, i + 1);
      }
    }
  }

  /**
   * Preference is the client's, not the relay's: the selection over a
   * concatenation is the selection over the first part if that succeeds,
   * otherwise the selection over the second part.
   */
  lemma {:induction false} SelectionOfConcatenation(first: seq<string>, second: seq<string>)
    ensures HandleProtocols(first + second)
            == if HandleProtocols(first).Selected? then HandleProtocols(first)
               else HandleProtocols(second)
  {
    SelectionIsFirstSupportedToken(first + second);
    SelectionIsFirstSupportedToken(first);
    SelectionIsFirstSupportedToken(second);
    SupportedTokensDistributes(first, second);
  }

  lemma {:induction false} SupportedTokensDistributes(first: seq<string>, second: seq<string>)
    ensures SupportedTokens(first + second) == SupportedTokens(first) + SupportedTokens(second)
  {
    if |first| > 0 {
      assert (first + second)[1..] == first[1..] + second;
      SupportedTokensDistributes(first[1..], second);
    } else {
      assert first + second == second;
    }
  }

  /** The selection never invents a token: it is one the client offered. */
  lemma SelectionWasOffered(offered: seq<string>)
    ensures HandleProtocols(offered).Selected? ==> HandleProtocols(offered).protocol in offered
  {
  }

  /** Worked cases: client order decides, unsupported tokens and empty offers fail. */
  lemma SelectionExamples()
    ensures HandleProtocols(["json", "text"]) == Selected("json")
    ensures HandleProtocols(["text", "json"]) == Selected("text")
    ensures HandleProtocols(["binary", "json"]) == Selected("json")
    ensures HandleProtocols(["binary"]) == Rejected
    ensures HandleProtocols([]) == Rejected
  {
  }
}
