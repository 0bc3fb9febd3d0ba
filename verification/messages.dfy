/**
 * The Bubble Tea messages the components react to, reduced to the fields
 * they read: a key's type and its `String()` text, a mouse event's button
 * and column, a window size, and the application's session-updated message.
 */
module Messages {

  import opened Wrappers

  datatype KeyType = KeyEnter | KeyBackspace | KeyUp | KeyDown | KeyRunes | KeyOther

  datatype MouseButton = MouseLeft | MouseOther

  datatype Msg =
    | KeyMsg(keyType: KeyType, key: string)
    | MouseMsg(button: MouseButton, x: int)
    | WindowSizeMsg(width: int, height: int)
    | SessionUpdatedMsg
    | OtherMsg

  /** The keys "1".."9" that jump to a tab. */
  predicate IsDigitKey(key: string)
  {
    |key| == 1 && '1' <= key[0] <= '9'
  }

  /**
   * `int(key[0]-'0') - 1` for a digit key: the zero-based tab it names;
   * `None` for every other key.
   */
  function DigitIndex(key: string): (r: Option<int>)
    ensures r.Some? <==> IsDigitKey(key)
    ensures r.Some? ==> 0 <= r.value <= 8
  {
    if IsDigitKey(key) then Some(key[0] as int - '0' as int - 1) else None
  }
}
