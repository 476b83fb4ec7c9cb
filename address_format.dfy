/** Shortening of hex addresses for display: `truncateWalletAddress` (utils.ts) and
    `formatAddress` (lib/utils.ts; Battles.tsx carries an identical local copy). */
module AddressFormat {
  import opened JsString

  type Address = string

  const DefaultTruncateLength: int := 6

  /** truncateWalletAddress(address, length): the address itself when it is empty or no
      longer than 2 * length, otherwise its first and last `length` characters around "...". */
  function TruncateWalletAddress(address: string, length: int): (r: string)
    ensures address == "" || |address| <= 2 * length ==> r == address
    ensures address != "" && |address| > 2 * length && length > 0 ==>
              && |r| == 2 * length + 3
              && r[..length] == address[..length]
              && r[length..length + 3] == "..."
              && r[length + 3..] == address[|address| - length..]
  {
    if address == "" || |address| <= length * 2 then address
    else Slice(address, 0, length) + "..." + SliceFrom(address, -length)
  }

  /** The call sites use the default length. */
  function TruncateWalletAddressDefault(address: string): (r: string)
    ensures |address| <= 12 ==> r == address
    ensures |address| > 12 ==> |r| == 15 && r[..6] == address[..6] && r[6..9] == "..."
                               && r[9..] == address[|address| - 6..]
  {
    TruncateWalletAddress(address, DefaultTruncateLength)
  }

  /** With length 0 the guard only catches the empty string, and `slice(-0)` is the whole
      string, so a non-empty address comes back with "..." in front. */
  lemma TruncateZeroLength(address: string)
    requires address != ""
    ensures TruncateWalletAddress(address, 0) == "..." + address
  {
    assert Slice(address, 0, 0) == "";
    assert SliceFrom(address, 0) == address[0..|address|];
    assert address[0..|address|] == address;
  }

  /** formatAddress(address): `address.slice(0, 6) + "..." + address.slice(-4)`. */
  function FormatAddress(address: string): (r: string)
    ensures |address| >= 6 ==> |r| == 13 && r[..6] == address[..6] && r[6..9] == "..."
    ensures |address| >= 4 ==> |r| >= 11 && r[|r| - 4..] == address[|address| - 4..]
    ensures |address| < 4 ==> r == address + "..." + address
    ensures 4 <= |address| < 6 ==> r == address + "..." + address[|address| - 4..]
  {
    Slice(address, 0, 6) + "..." + SliceFrom(address, -4)
  }

  /** A full 42-character hex address keeps its "0x" and first four digits and its last four. */
  lemma FormatFullAddress(address: string)
    requires |address| == 42
    ensures FormatAddress(address) == address[..6] + "..." + address[38..]
  {
  }
}
