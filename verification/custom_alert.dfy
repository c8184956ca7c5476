/** The modal of components/CustomAlert/CustomAlert.tsx, reduced to which of
    its two callbacks fire, in which order, for each way of leaving it, and
    which buttons it shows with which labels. */
module CustomAlert {
  import opened Wrappers

  /** The callbacks the modal can invoke: the optional `onConfirm` and `onClose`. */
  datatype Callback = Confirm | Close

  /** The ways of leaving the modal: its confirm button, its cancel button, and
      the platform's request to close it (the Android back button). */
  datatype Exit = ConfirmButton | CancelButton | RequestClose

  /** The props after defaults: `hasOnConfirm` says whether `onConfirm` was given. */
  datatype AlertProps = AlertProps(visible: bool, title: string, message: string, hasOnConfirm: bool,
                                   showCancelButton: bool, confirmText: string, cancelText: string)

  const DefaultConfirmText := "Aceptar"
  const DefaultCancelText := "Cancelar"

  /** Destructuring with defaults: `showCancelButton = false`,
      `confirmText = 'Aceptar'`, `cancelText = 'Cancelar'` when not passed. */
  function WithDefaults(visible: bool, title: string, message: string, hasOnConfirm: bool,
                        showCancelButton: Option<bool>, confirmText: Option<string>,
                        cancelText: Option<string>): (p: AlertProps)
    ensures p.showCancelButton <==> showCancelButton == Some(true)
    ensures p.confirmText == (if confirmText.Some? then confirmText.value else DefaultConfirmText)
    ensures p.cancelText == (if cancelText.Some? then cancelText.value else DefaultCancelText)
    ensures p.hasOnConfirm == hasOnConfirm && p.title == title && p.message == message && p.visible == visible
  {
    AlertProps(visible, title, message, hasOnConfirm,
      match showCancelButton case Some(b) => b case None => false,
      match confirmText case Some(t) => t case None => DefaultConfirmText,
      match cancelText case Some(t) => t case None => DefaultCancelText)
  }

  /** A rendered button: its caption and the exit it triggers. */
  datatype Button = Button(caption: string, exit: Exit)

  /** The button row: the cancel button only when `showCancelButton`, then the
      confirm button. */
  function Buttons(p: AlertProps): (r: seq<Button>)
    ensures |r| == if p.showCancelButton then 2 else 1
    ensures r[|r| - 1] == Button(p.confirmText, ConfirmButton)
    ensures (exists b :: b in r && b.exit == CancelButton) <==> p.showCancelButton
    ensures forall b :: b in r && b.exit == CancelButton ==> b.caption == p.cancelText
    ensures forall b :: b in r ==> b.exit != RequestClose
  {
    (if p.showCancelButton then [Button(p.cancelText, CancelButton)] else []) + [Button(p.confirmText, ConfirmButton)]
  }

  /** The callbacks fired, in order: `handleConfirm` calls `onConfirm` if given,
      then `onClose`; the cancel button and a close request call `onClose` only. */
  function Fired(p: AlertProps, e: Exit): (r: seq<Callback>)
    ensures |r| > 0 && r[|r| - 1] == Close
    ensures multiset(r)[Close] == 1
    ensures Confirm in r <==> e == ConfirmButton && p.hasOnConfirm
    ensures e == ConfirmButton && p.hasOnConfirm ==> r == [Confirm, Close]
  {
    match e
    case ConfirmButton => (if p.hasOnConfirm then [Confirm] else []) + [Close]
    case CancelButton => [Close]
    case RequestClose => [Close]
  }

  /** Every shown button closes the modal exactly once, as its last callback. */
  lemma EveryButtonCloses(p: AlertProps, b: Button)
    requires b in Buttons(p)
    ensures var r := Fired(p, b.exit);
      r[|r| - 1] == Close && multiset(r)[Close] == 1
  {
  }

  /** Without `onConfirm`, every exit, the confirm button included, only closes. */
  lemma WithoutConfirmOnlyCloses(p: AlertProps, e: Exit)
    requires !p.hasOnConfirm
    ensures Fired(p, e) == [Close]
  {
  }
}
