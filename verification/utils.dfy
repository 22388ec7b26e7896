/** `shortenAddress(address, chars)`: the head and the tail of an address
    around an ellipsis, for display. */
module Utils {
  import opened JsText

  /** The default number of trailing characters kept. */
  const DefaultChars: int := 4

  /** `address.slice(0, chars + 2)`, "...", `address.slice(-chars)`; an
      empty address gives the empty string. */
  function ShortenAddress(address: string, chars: int): (r: string)
    ensures address == "" ==> r == ""
    ensures address != "" ==>
      var head := Relative(chars + 2, |address|);
      var tail := Relative(-chars, |address|);
      r == address[..head] + "..." + address[tail..]
    ensures 1 <= chars && chars + 2 <= |address| ==>
      && |r| == 2 * chars + 5
      && r[..chars + 2] == address[..chars + 2]
      && r[chars + 2..chars + 5] == "..."
      && r[chars + 5..] == address[|address| - chars..]
  {
    if address == "" then ""
    else Slice(address, 0, chars + 2) + "..." + SliceFrom(address, -chars)
  }

  /** With room for both ends, the text is `2 * chars + 5` long: the first
      `chars + 2` characters (the "0x" and `chars` digits), the ellipsis,
      and the last `chars`. */
  lemma ShortenKeepsEnds(address: string, chars: int)
    requires 1 <= chars && chars + 2 <= |address|
    ensures var r := ShortenAddress(address, chars);
      && |r| == 2 * chars + 5
      && r[..chars + 2] == address[..chars + 2]
      && r[chars + 2..chars + 5] == "..."
      && r[chars + 5..] == address[|address| - chars..]
  {
    var r := ShortenAddress(address, chars);
    assert r == address[..chars + 2] + "..." + address[|address| - chars..];
  }

  /** `slice(-0)` is `slice(0)`: with no trailing characters asked for, the
      whole address follows the ellipsis. */
  lemma ShortenZeroKeepsAll(address: string)
    requires address != ""
    ensures ShortenAddress(address, 0) == address[..if |address| < 2 then |address| else 2] + "..." + address
  {
    assert address[0..] == address;
  }

  /** The default on a 42-character address: "0x" and four digits, the
      ellipsis, the last four digits. */
  lemma ShortenDefaultAddress(address: string)
    requires |address| == 42
    ensures ShortenAddress(address, DefaultChars) == address[..6] + "..." + address[38..]
    ensures |ShortenAddress(address, DefaultChars)| == 13
  {
  }
}
