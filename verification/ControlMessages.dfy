/** The control messages of a session and the permission each one needs. */
module ControlMessages {
  import opened Prelude

  datatype Msg =
    | Shutdown
    | AndroidPhone(action: I32, modernBack: bool)
    | RefreshVideo
    | VideoPressure(level: nat)
    | SetImageQuality(quality: I32, generation: nat)
    | SetStreamOptions(codec: I32, audioEnabled: bool)
    | TogglePrivacyMode(implKey: string, privacyOn: bool)
    | ToggleVirtualDisplay(virtualDisplay: I32, plugIn: bool)
    | KeyEvent(scancode: nat, pressed: bool)
    | MouseEvent(x: I32, y: I32, button: nat, down: bool)
    | MouseMove(x: I32, y: I32)
    | MouseWheel(x: I32, y: I32, delta: I32)
    | MouseWheel2D(x: I32, y: I32)
    | Text(text: string)
    | SendFile(remotePath: string, data: seq<Byte>)
    | Clipboard(content: seq<Byte>)
    | ClipboardTracked(content: seq<Byte>, receipt: nat)
    | ChangeDisplayResolution(display: I32, width: I32, height: I32)
    | SwitchDisplay(display: I32)
    | DisplaySwitch(display: I32, generation: nat)
    | CaptureDisplays(add: seq<I32>, sub: seq<I32>, only: seq<I32>)
    | RefreshVideoDisplay(display: I32)
    | TouchScale(scale: I32)
    | TouchPanStart(x: I32, y: I32)
    | TouchPanUpdate(x: I32, y: I32)
    | TouchPanEnd(x: I32, y: I32)

  /** A u32 permission mask, as the set of its one bits. */
  type Mask = set<int>

  const KEYBOARD: int := 0
  const CLIPBOARD: int := 2
  const FILE: int := 4

  /** The permission bit that protects a message, if any. */
  function RequiredPermission(m: Msg): Option<int> {
    if m.AndroidPhone? || m.KeyEvent? || m.Text? || PointerKind(m) || TouchKind(m) then Some(KEYBOARD)
    else if m.Clipboard? || m.ClipboardTracked? then Some(CLIPBOARD)
    else if m.SendFile? then Some(FILE)
    else None
  }

  predicate PointerKind(m: Msg) {
    m.MouseEvent? || m.MouseMove? || m.MouseWheel? || m.MouseWheel2D?
  }

  predicate TouchKind(m: Msg) {
    m.TouchScale? || m.TouchPanStart? || m.TouchPanUpdate? || m.TouchPanEnd?
  }

  /** Whether a mask names exactly the permission that protects the message. */
  predicate ProtectedBy(m: Msg, mask: Mask) {
    RequiredPermission(m).Some? && mask == {RequiredPermission(m).value}
  }

  /** Pointer deltas that a display switch makes meaningless. */
  predicate StaleUpdate(m: Msg) {
    (m.TouchScale? && m.scale > 0) || m.TouchPanUpdate? || m.MouseWheel2D?
  }

  /** Messages that go to the reliable queue when accepted, rather than to a slot. */
  predicate ReliableKind(m: Msg) {
    && !m.Shutdown? && !m.RefreshVideo? && !m.VideoPressure? && !m.DisplaySwitch?
    && !m.MouseMove? && !m.MouseWheel2D? && !m.TouchPanUpdate?
    && (m.TouchScale? ==> m.scale <= 0)
  }
}
