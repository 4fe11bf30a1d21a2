/** The keyboard's arrow codes and the headings they request. */
module Keys {
  import opened Optional
  import opened Grid

  /** The key code that requests heading `d`. */
  function ArrowKey(d: Direction): (code: string)
    ensures |code| > 5 && code[..5] == "Arrow"
  {
    match d
    case Up => "ArrowUp"
    case Down => "ArrowDown"
    case Left => "ArrowLeft"
    case Right => "ArrowRight"
  }

  /** The heading a key code requests; every other code is `null`. */
  function DirectionFromKey(code: string): Option<Direction> {
    if code == "ArrowUp" then Some(Up)
    else if code == "ArrowDown" then Some(Down)
    else if code == "ArrowLeft" then Some(Left)
    else if code == "ArrowRight" then Some(Right)
    else None
  }

  /**
   * The mapping recognises exactly the four arrow codes: each arrow code
   * gives its heading, and a code gives a heading only if it is that
   * heading's arrow code.
   */
  lemma ArrowKeysRoundTrip(code: string, d: Direction)
    ensures DirectionFromKey(ArrowKey(d)) == Some(d)
    ensures DirectionFromKey(code) == Some(d) <==> code == ArrowKey(d)
    ensures DirectionFromKey(code) == None <==> forall e: Direction :: code != ArrowKey(e)
  {
    if DirectionFromKey(code) == None {
      forall e: Direction ensures code != ArrowKey(e) {
        match e
        case Up =>
        case Down =>
        case Left =>
        case Right =>
      }
    } else {
      var e := DirectionFromKey(code).value;
      assert code == ArrowKey(e);
    }
  }
}
