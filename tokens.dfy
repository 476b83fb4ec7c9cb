/** The token records returned by the contract's `getTokens` read, and the
    `tokens?.find(t => t.token === address)` lookup the battle and leaderboard views share. */
module Tokens {
  import opened Wrappers
  import opened AddressFormat

  /** Lifecycle stage 2 is "graduated". */
  const GraduatedStage: int := 2

  datatype TokenInfo = TokenInfo(token: Address, name: string, ticker: string,
                                 description: string, supply: nat, stage: int)

  /** The first token whose address equals `address`, if any (`Array.prototype.find`);
      an absent list (`tokens?.`) finds nothing. */
  function FindToken(tokens: Option<seq<TokenInfo>>, address: Address): (r: Option<TokenInfo>)
    ensures r.Some? <==> tokens.Some? && exists i :: 0 <= i < |tokens.value| && tokens.value[i].token == address
    ensures r.Some? ==> exists i :: 0 <= i < |tokens.value| && tokens.value[i] == r.value
                                    && r.value.token == address
                                    && forall j :: 0 <= j < i ==> tokens.value[j].token != address
  {
    match tokens
    case None => None
    case Some(ts) => Find(ts, address)
  }

  function Find(ts: seq<TokenInfo>, address: Address): (r: Option<TokenInfo>)
    ensures r.Some? <==> exists i :: 0 <= i < |ts| && ts[i].token == address
    ensures r.Some? ==> exists i :: 0 <= i < |ts| && ts[i] == r.value && r.value.token == address
                                    && forall j :: 0 <= j < i ==> ts[j].token != address
  {
    if ts == [] then None
    else if ts[0].token == address then Some(ts[0])
    else
      var r := Find(ts[1..], address);
      assert r.Some? ==> exists i :: 0 <= i < |ts[1..]| && ts[1..][i] == r.value && r.value.token == address
                                    && forall j :: 0 <= j < i ==> ts[1..][j].token != address;
      assert forall i :: 0 <= i < |ts[1..]| ==> ts[1..][i] == ts[i + 1];
      r
  }

  /** `token?.name || formatAddress(address)`: the token's name when it has a non-empty
      one, otherwise the shortened address. */
  function TokenLabel(tokens: Option<seq<TokenInfo>>, address: Address): (r: string)
    ensures r != ""
    ensures var t := FindToken(tokens, address); t.Some? && t.value.name != "" ==> r == t.value.name
    ensures r != FormatAddress(address) ==>
              tokens.Some? && exists i :: 0 <= i < |tokens.value| && tokens.value[i].token == address
                                          && tokens.value[i].name == r
  {
    match FindToken(tokens, address)
    case Some(t) => if t.name != "" then t.name else FormatAddress(address)
    case None => FormatAddress(address)
  }
}
