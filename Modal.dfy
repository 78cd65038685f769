/** The modal-dialog state of frontend/src/hooks/useModal.js: `showModal`'s
    defaults, `closeModal`, the `confirm`/`alert`/`error` presets and the
    promise each `showModal` call returns.

    The promises are kept beside the state, in the order they were created;
    the state's `onConfirm` names the promise of the call that built it. */
module Modal {
  import opened Wrappers
  import opened Js

  /** What the confirm button does: nothing yet, or resolve promise `p` with
      true and close the dialog. */
  datatype Handler = NoHandler | ResolveAndClose(p: nat)

  datatype ModalState = ModalState(isOpen: bool, title: Json, message: Json, kind: Json,
                                   onConfirm: Handler, confirmText: Json, cancelText: Json, showCancel: bool)

  datatype Promise = Pending | Resolved(value: bool)

  /** The hook's state and the promises `showModal` has handed out. */
  datatype Hook = Hook(state: ModalState, promises: seq<Promise>)

  /** The initial state: closed, untitled, "info", "OK"/"Cancel". */
  const Initial := Hook(ModalState(false, JStr(""), JStr(""), JStr("info"), NoHandler, JStr("OK"), JStr("Cancel"), true), [])

  /** `v` is what `config[key] || fallback` gives. */
  predicate Defaulted(config: Obj, key: string, fallback: Json, v: Json) {
    if Truthy(Get(config, key)) then Some(v) == Get(config, key) else v == fallback
  }

  /** The state `showModal(config)` sets for its promise `p`: open, every
      falsy field defaulted, the cancel button shown unless `showCancel` is
      exactly `false`. */
  function Shown(config: Obj, p: nat): (s: ModalState)
    ensures s.isOpen && s.onConfirm == ResolveAndClose(p)
    ensures Defaulted(config, "title", JStr("Alert"), s.title)
    ensures Defaulted(config, "message", JStr(""), s.message)
    ensures Defaulted(config, "type", JStr("info"), s.kind)
    ensures Defaulted(config, "confirmText", JStr("OK"), s.confirmText)
    ensures Defaulted(config, "cancelText", JStr("Cancel"), s.cancelText)
    ensures s.showCancel <==> Get(config, "showCancel") != Some(JBool(false))
  {
    ModalState(true,
               OrElse(Get(config, "title"), JStr("Alert")),
               OrElse(Get(config, "message"), JStr("")),
               OrElse(Get(config, "type"), JStr("info")),
               ResolveAndClose(p),
               OrElse(Get(config, "confirmText"), JStr("OK")),
               OrElse(Get(config, "cancelText"), JStr("Cancel")),
               Get(config, "showCancel") != Some(JBool(false)))
  }

  /** `showModal(config)`: a new pending promise, and the dialog shown for
      it. Earlier promises are left as they are. */
  function ShowModal(h: Hook, config: Obj): (r: Hook)
    ensures |r.promises| == |h.promises| + 1 && r.promises[..|h.promises|] == h.promises
    ensures r.promises[|h.promises|] == Pending
    ensures r.state == Shown(config, |h.promises|)
  {
    Hook(Shown(config, |h.promises|), h.promises + [Pending])
  }

  /** `closeModal`: closed, every other field as it was, no promise
      settled. */
  function CloseModal(h: Hook): (r: Hook)
    ensures !r.state.isOpen && r.state == h.state.(isOpen := false)
    ensures r.promises == h.promises
  {
    h.(state := h.state.(isOpen := false))
  }

  /** A click on the confirm button: the handler resolves its promise with
      true (a promise already settled stays as it was) and closes the
      dialog. */
  function ClickConfirm(h: Hook): (r: Hook)
    ensures |r.promises| == |h.promises|
    ensures forall i :: 0 <= i < |h.promises| && h.promises[i] != r.promises[i] ==>
              h.state.onConfirm == ResolveAndClose(i) && h.promises[i] == Pending && r.promises[i] == Resolved(true)
    ensures h.state.onConfirm.ResolveAndClose? ==> !r.state.isOpen
  {
    match h.state.onConfirm
    case NoHandler => h
    case ResolveAndClose(p) =>
      var settled := if p < |h.promises| && h.promises[p] == Pending then h.promises[p := Resolved(true)] else h.promises;
      CloseModal(Hook(h.state, settled))
  }

  /** A cancel click is `closeModal`: it never settles a promise, so the
      promise of a cancelled dialog stays pending. */
  lemma CancelLeavesPending(h: Hook, config: Obj)
    ensures var shown := ShowModal(h, config);
            CloseModal(shown).promises[|h.promises|] == Pending
  {
  }

  /** Confirming a freshly shown dialog resolves its promise with true and
      closes it. */
  lemma ConfirmResolvesShown(h: Hook, config: Obj)
    ensures var r := ClickConfirm(ShowModal(h, config));
            r.promises[|h.promises|] == Resolved(true) && !r.state.isOpen &&
            r.promises[..|h.promises|] == h.promises
  {
    var shown := ShowModal(h, config);
    var r := ClickConfirm(shown);
    assert shown.promises[|h.promises|] == Pending;
    assert r.promises == shown.promises[|h.promises| := Resolved(true)];
  }

  /** A second `showModal` before the first dialog is confirmed takes over
      the confirm button, so the first promise can no longer be settled by
      it. */
  lemma SecondShowSupersedes(h: Hook, c1: Obj, c2: Obj)
    ensures var r := ClickConfirm(ShowModal(ShowModal(h, c1), c2));
            r.promises[|h.promises|] == Pending && r.promises[|h.promises| + 1] == Resolved(true)
  {
    var once := ShowModal(h, c1);
    var twice := ShowModal(once, c2);
    assert twice.promises[|h.promises|] == once.promises[|h.promises|];
  }

  /** `{ key: v }` when `v` is defined, and no such property otherwise. */
  function WithField(o: Obj, key: string, v: Option<Json>): Obj {
    if v.Some? then o[key := v.value] else o
  }

  /** `confirm(title, message)`: a "confirm" dialog with "Yes"/"No" and a
      cancel button. */
  function Confirm(h: Hook, title: Option<Json>, message: Option<Json>): (r: Hook)
    ensures r.state.isOpen && r.state.kind == JStr("confirm") && r.state.showCancel
    ensures r.state.confirmText == JStr("Yes") && r.state.cancelText == JStr("No")
    ensures r.state.title == OrElse(title, JStr("Alert")) && r.state.message == OrElse(message, JStr(""))
    ensures r.promises == h.promises + [Pending]
  {
    var config := WithField(WithField(map["type" := JStr("confirm"), "confirmText" := JStr("Yes"),
                                          "cancelText" := JStr("No"), "showCancel" := JBool(true)],
                                      "title", title), "message", message);
    ShowModal(h, config)
  }

  /** `alert(title, message, type)`: no cancel button, "OK", and the type
      "info" when it is falsy or omitted. */
  function Alert(h: Hook, title: Option<Json>, message: Option<Json>, kind: Option<Json>): (r: Hook)
    ensures r.state.isOpen && !r.state.showCancel && r.state.confirmText == JStr("OK")
    ensures r.state.kind == OrElse(kind, JStr("info"))
    ensures r.state.title == OrElse(title, JStr("Alert")) && r.state.message == OrElse(message, JStr(""))
    ensures r.promises == h.promises + [Pending]
  {
    var k := if kind.Some? then kind.value else JStr("info");
    var config := WithField(WithField(map["type" := k, "confirmText" := JStr("OK"), "showCancel" := JBool(false)],
                                      "title", title), "message", message);
    ShowModal(h, config)
  }

  /** `error(title, message)`: an "error" dialog with "OK" and no cancel
      button. */
  function Error(h: Hook, title: Option<Json>, message: Option<Json>): (r: Hook)
    ensures r.state.isOpen && !r.state.showCancel && r.state.confirmText == JStr("OK")
    ensures r.state.kind == JStr("error")
    ensures r.state.title == OrElse(title, JStr("Alert")) && r.state.message == OrElse(message, JStr(""))
    ensures r.promises == h.promises + [Pending]
  {
    var config := WithField(WithField(map["type" := JStr("error"), "confirmText" := JStr("OK"), "showCancel" := JBool(false)],
                                      "title", title), "message", message);
    ShowModal(h, config)
  }
}
