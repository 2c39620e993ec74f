/**
 * The contract wizard's store (src/store/index.ts): a `ui` slice holding the
 * current step, clamped to the four steps 0..3, and a `form` slice that is
 * patched by object spread and reset to the initial form.
 */
module ContractStore {
  import opened Js
  import opened ContractForm

  /** The last step of the wizard; the steps are 0..LastStep. */
  const LastStep := 3

  /** `clampStep(n)`: `Math.max(0, Math.min(3, n))`. */
  function ClampStep(n: int): (r: int)
    ensures 0 <= r <= LastStep
    ensures 0 <= n <= LastStep ==> r == n
    ensures n < 0 ==> r == 0
    ensures n > LastStep ==> r == LastStep
  {
    if n < 0 then 0 else if n > LastStep then LastStep else n
  }

  /** The `ui` slice: its reducers assign `step` in place. */
  class UiState {
    var step: int

    predicate Valid()
      reads this
    {
      0 <= step <= LastStep
    }

    /** `initialUI`: the wizard opens on step 0. */
    constructor()
      ensures Valid() && step == 0
    {
      step := 0;
    }

    /** `goToStep(n)` */
    method GoToStep(n: int)
      modifies this
      ensures Valid() && step == ClampStep(n)
    {
      step := ClampStep(n);
    }

    /** `next()`: one step forward, staying on the last step. */
    method Next()
      modifies this
      ensures Valid() && step == ClampStep(old(step) + 1)
      ensures old(Valid()) ==> step == if old(step) < LastStep then old(step) + 1 else LastStep
    {
      step := ClampStep(step + 1);
    }

    /** `prev()`: one step back, staying on the first step. */
    method Prev()
      modifies this
      ensures Valid() && step == ClampStep(old(step) - 1)
      ensures old(Valid()) ==> step == if old(step) > 0 then old(step) - 1 else 0
    {
      step := ClampStep(step - 1);
    }
  }

  /** `patchForm(payload)`: `{ ...state, ...payload }`. */
  function PatchForm(state: Form, payload: Form): (r: Form)
    ensures r.Keys == state.Keys + payload.Keys
    ensures forall k :: k in payload ==> r[k] == payload[k]
    ensures forall k :: k in state && k !in payload ==> r[k] == state[k]
  {
    Spread(state, payload)
  }

  /** `resetForm()` */
  function ResetForm(): (r: Form)
    ensures Field(r, "tipoDocumento") == Str("contrato")
    ensures Field(r, "servicoChave") == Undefined
    ensures Field(r, "params") == Obj(map[])
  {
    InitialForm()
  }

  // ---------------------------------------------------------------- lemmas

  /** Clamping twice is clamping once. */
  lemma ClampStepIdempotent(n: int)
    ensures ClampStep(ClampStep(n)) == ClampStep(n)
  {
  }

  /** Away from the ends, `next` then `prev` (and `prev` then `next`) come back to the same step. */
  lemma NextPrevRoundTrip(s: int)
    requires 0 <= s <= LastStep
    ensures s < LastStep ==> ClampStep(ClampStep(s + 1) - 1) == s
    ensures s > 0 ==> ClampStep(ClampStep(s - 1) + 1) == s
  {
  }

  /** A patch carrying `undefined` for a field stores `undefined` there: the field is not dropped. */
  lemma PatchFormKeepsUndefined(state: Form, name: string)
    ensures name in PatchForm(state, map[name := Undefined])
    ensures Field(PatchForm(state, map[name := Undefined]), name) == Undefined
  {
  }

  /** Applying the same patch twice is applying it once. */
  lemma PatchFormIdempotent(state: Form, payload: Form)
    ensures PatchForm(PatchForm(state, payload), payload) == PatchForm(state, payload)
  {
    var once := PatchForm(state, payload);
    var twice := PatchForm(once, payload);
    assert forall k :: k in twice ==> twice[k] == once[k];
  }

  /** Two patches in a row are one patch with the later one's fields winning. */
  lemma PatchFormCompose(state: Form, p: Form, q: Form)
    ensures PatchForm(PatchForm(state, p), q) == PatchForm(state, PatchForm(p, q))
  {
    var lhs := PatchForm(PatchForm(state, p), q);
    var rhs := PatchForm(state, PatchForm(p, q));
    assert forall k :: k in lhs ==> lhs[k] == rhs[k];
  }
}
