/**
 * The contract wizard's step validators (src/utils/validators.ts). Each
 * starts from an empty list and appends one message per required field that
 * is missing or blank after `trim()`, in a fixed order.
 */
module Validators {
  import opened Js
  import opened ContractForm

  /**
   * A field read with `f.name?.trim()`: it must be absent, null or a string,
   * as the form's types say; `trim` on any other value throws.
   */
  predicate IsText(v: JsValue) {
    v.Undefined? || v.Null? || v.Str?
  }

  /** `!v?.trim()`: absent, null, or nothing but white space (see `BlankTrims`). */
  predicate Blank(v: JsValue)
    requires IsText(v)
  {
    !v.Str? || AllSpace(v.s)
  }

  /**
   * `!v?.toString()?.trim()`: absent, null, or a string of white space;
   * `BlankTextTrims` shows no other value's text trims to nothing.
   */
  predicate BlankText(v: JsValue) {
    v.Undefined? || v.Null? || (v.Str? && AllSpace(v.s))
  }

  /** One check of a validator: whether the field fails, and the message it then adds. */
  datatype Check = Check(fails: bool, message: string)

  /** The messages of the failing checks, in the order of the checks. */
  function Errors(checks: seq<Check>): (r: seq<string>)
    ensures |r| <= |checks|
  {
    if checks == [] then []
    else (if checks[0].fails then [checks[0].message] else []) + Errors(checks[1..])
  }

  const NomeMsg := "Nome do prestador é obrigatório."
  const CpfMsg := "CPF do prestador é obrigatório."
  const EmailMsg := "E-mail do prestador é obrigatório."
  const EnderecoMsg := "Endereço do prestador é obrigatório."
  const InicioMsg := "Data de início é obrigatória."
  const ValorMsg := "Valor total é obrigatório."
  const CidadeMsg := "Foro (cidade) é obrigatório."
  const UfMsg := "Foro (UF) é obrigatório."
  const ServicoMsg := "Selecione um serviço ou 'Custom'."
  const TituloMsg := "Título do serviço (custom) é obrigatório."
  const EscopoMsg := "Escopo do serviço (custom) é obrigatório."
  const DistratoMsg := "Data do distrato é obrigatória."

  predicate PartesFields(f: Form) {
    IsText(Field(f, "prestadorNome")) && IsText(Field(f, "prestadorCpf"))
    && IsText(Field(f, "prestadorEmail")) && IsText(Field(f, "prestadorEndereco"))
  }

  /** The checks of `validateStep0Partes`, in order. */
  function PartesChecks(f: Form): seq<Check>
    requires PartesFields(f)
  {
    [ Check(Blank(Field(f, "prestadorNome")), NomeMsg),
      Check(Blank(Field(f, "prestadorCpf")), CpfMsg),
      Check(Blank(Field(f, "prestadorEmail")), EmailMsg),
      Check(Blank(Field(f, "prestadorEndereco")), EnderecoMsg) ]
  }

  predicate ParametrosFields(f: Form) {
    IsText(Field(f, "dataInicio")) && IsText(Field(f, "foroCidade")) && IsText(Field(f, "foroUf"))
  }

  /** The checks of `validateStep1Parametros`, in order. */
  function ParametrosChecks(f: Form): seq<Check>
    requires ParametrosFields(f)
  {
    [ Check(Blank(Field(f, "dataInicio")), InicioMsg),
      Check(BlankText(Field(f, "valorTotal")), ValorMsg),
      Check(Blank(Field(f, "foroCidade")), CidadeMsg),
      Check(Blank(Field(f, "foroUf")), UfMsg) ]
  }

  predicate ServicoFields(f: Form) {
    IsText(Field(f, "servicoCustomTitulo")) && IsText(Field(f, "servicoCustomEscopo"))
    && IsText(Field(f, "dataDistrato"))
  }

  /** The checks `validateStep2Servico` makes, which depend on the document type and the service. */
  function ServicoChecks(f: Form): seq<Check>
    requires ServicoFields(f)
  {
    if Field(f, "tipoDocumento") == Str("contrato") then
      [Check(!Truthy(Field(f, "servicoChave")), ServicoMsg)]
      + if Field(f, "servicoChave") == Str("custom") then
          [ Check(Blank(Field(f, "servicoCustomTitulo")), TituloMsg),
            Check(Blank(Field(f, "servicoCustomEscopo")), EscopoMsg) ]
        else []
    else [Check(Blank(Field(f, "dataDistrato")), DistratoMsg)]
  }

  /** `validateStep0Partes(f)` */
  method ValidatePartes(f: Form) returns (errs: seq<string>)
    requires PartesFields(f)
    ensures errs == Errors(PartesChecks(f))
    ensures errs == [] <==> (!Blank(Field(f, "prestadorNome")) && !Blank(Field(f, "prestadorCpf"))
                             && !Blank(Field(f, "prestadorEmail")) && !Blank(Field(f, "prestadorEndereco")))
  {
    errs := [];
    if Blank(Field(f, "prestadorNome")) { errs := errs + [NomeMsg]; }
    if Blank(Field(f, "prestadorCpf")) { errs := errs + [CpfMsg]; }
    if Blank(Field(f, "prestadorEmail")) { errs := errs + [EmailMsg]; }
    if Blank(Field(f, "prestadorEndereco")) { errs := errs + [EnderecoMsg]; }
    ErrorsOfFour(PartesChecks(f));
  }

  /** `validateStep1Parametros(f)` */
  method ValidateParametros(f: Form) returns (errs: seq<string>)
    requires ParametrosFields(f)
    ensures errs == Errors(ParametrosChecks(f))
    ensures errs == [] <==> (!Blank(Field(f, "dataInicio")) && !BlankText(Field(f, "valorTotal"))
                             && !Blank(Field(f, "foroCidade")) && !Blank(Field(f, "foroUf")))
  {
    errs := [];
    if Blank(Field(f, "dataInicio")) { errs := errs + [InicioMsg]; }
    if BlankText(Field(f, "valorTotal")) { errs := errs + [ValorMsg]; }
    if Blank(Field(f, "foroCidade")) { errs := errs + [CidadeMsg]; }
    if Blank(Field(f, "foroUf")) { errs := errs + [UfMsg]; }
    ErrorsOfFour(ParametrosChecks(f));
  }

  /** `validateStep2Servico(f)` */
  method ValidateServico(f: Form) returns (errs: seq<string>)
    requires ServicoFields(f)
    ensures errs == Errors(ServicoChecks(f))
    ensures Field(f, "tipoDocumento") != Str("contrato") ==>
              |errs| <= 1 && (errs == [] <==> !Blank(Field(f, "dataDistrato")))
    ensures Field(f, "tipoDocumento") == Str("contrato") ==> |errs| <= 2 && DistratoMsg !in errs
    ensures Field(f, "tipoDocumento") == Str("contrato") && !Truthy(Field(f, "servicoChave")) ==>
              errs == [ServicoMsg]
    ensures Field(f, "tipoDocumento") == Str("contrato") && Field(f, "servicoChave") == Str("custom") ==>
              (errs == [] <==> !Blank(Field(f, "servicoCustomTitulo")) && !Blank(Field(f, "servicoCustomEscopo")))
    ensures (Field(f, "tipoDocumento") == Str("contrato") && Truthy(Field(f, "servicoChave"))
             && Field(f, "servicoChave") != Str("custom")) ==> errs == []
  {
    errs := [];
    if Field(f, "tipoDocumento") == Str("contrato") {
      if !Truthy(Field(f, "servicoChave")) { errs := errs + [ServicoMsg]; }
      if Field(f, "servicoChave") == Str("custom") {
        if Blank(Field(f, "servicoCustomTitulo")) { errs := errs + [TituloMsg]; }
        if Blank(Field(f, "servicoCustomEscopo")) { errs := errs + [EscopoMsg]; }
      }
    } else {
      if Blank(Field(f, "dataDistrato")) { errs := errs + [DistratoMsg]; }
    }
    ServicoErrors(f);
  }

  // ---------------------------------------------------------------- lemmas

  /** `Blank` is the test `!v?.trim()` makes. */
  lemma BlankTrims(v: JsValue)
    requires IsText(v)
    ensures Blank(v) <==> !v.Str? || Trim(v.s) == ""
  {
    if v.Str? {
      TrimEmpty(v.s);
    }
  }

  /** `BlankText` is the test `!v?.toString()?.trim()` makes, on every value. */
  lemma BlankTextTrims(v: JsValue)
    ensures BlankText(v) <==> v.Undefined? || v.Null? || Trim(ToStr(v)) == ""
  {
    if v.Str? {
      TrimEmpty(v.s);
    } else if !v.Undefined? && !v.Null? {
      OtherTextNotBlank(v);
    }
  }

  /** The text of a boolean, a number, `NaN` or an object starts with a visible character. */
  lemma OtherTextNotBlank(v: JsValue)
    requires v.Bool? || v.Num? || v.NaN? || v.Obj?
    ensures Trim(ToStr(v)) != ""
  {
    var t := ToStr(v);
    assert t != [] && !IsSpace(t[0]) by {
      if v.Num? {
        NumberTextNotBlank(v.hundredths);
      }
    }
    TrimEmpty(t);
  }

  /** The error list is empty exactly when no check fails. */
  lemma {:induction false} ErrorsEmpty(checks: seq<Check>)
    ensures Errors(checks) == [] <==> forall i :: 0 <= i < |checks| ==> !checks[i].fails
  {
    if checks != [] {
      ErrorsEmpty(checks[1..]);
      assert forall i :: 1 <= i < |checks| ==> checks[i] == checks[1..][i - 1];
    }
  }

  /** A message is listed exactly when some check with that message fails. */
  lemma {:induction false} ErrorsMembers(checks: seq<Check>, msg: string)
    ensures msg in Errors(checks) <==> exists i :: 0 <= i < |checks| && checks[i].fails && checks[i].message == msg
  {
    if checks != [] {
      ErrorsMembers(checks[1..], msg);
      assert forall i :: 1 <= i < |checks| ==> checks[i] == checks[1..][i - 1];
      if msg in Errors(checks[1..]) {
        var i :| 0 <= i < |checks[1..]| && checks[1..][i].fails && checks[1..][i].message == msg;
        assert checks[i + 1] == checks[1..][i];
      }
    }
  }

  lemma {:induction false} ErrorsAppend(a: seq<Check>, b: seq<Check>)
    ensures Errors(a + b) == Errors(a) + Errors(b)
  {
    if a == [] {
      assert a + b == b;
    } else {
      assert (a + b)[0] == a[0];
      assert (a + b)[1..] == a[1..] + b;
      ErrorsAppend(a[1..], b);
    }
  }

  /** One more check appends its message when it fails. */
  lemma ErrorsPrefix(checks: seq<Check>, k: int)
    requires 0 <= k < |checks|
    ensures Errors(checks[..k + 1]) == Errors(checks[..k]) + (if checks[k].fails then [checks[k].message] else [])
  {
    assert checks[..k + 1] == checks[..k] + [checks[k]];
    ErrorsAppend(checks[..k], [checks[k]]);
    assert [checks[k]][1..] == [];
  }

  /** Four checks: what four `if`s in a row append. */
  lemma ErrorsOfFour(checks: seq<Check>)
    requires |checks| == 4
    ensures Errors(checks) == (if checks[0].fails then [checks[0].message] else [])
                            + (if checks[1].fails then [checks[1].message] else [])
                            + (if checks[2].fails then [checks[2].message] else [])
                            + (if checks[3].fails then [checks[3].message] else [])
  {
    assert checks[..0] == [];
    ErrorsPrefix(checks, 0);
    ErrorsPrefix(checks, 1);
    ErrorsPrefix(checks, 2);
    ErrorsPrefix(checks, 3);
    assert checks[..4] == checks;
  }

  /** With distinct messages, a message is listed exactly when its own check fails. */
  lemma DistinctMessages(checks: seq<Check>, i: int)
    requires forall j, k :: 0 <= j < k < |checks| ==> checks[j].message != checks[k].message
    requires 0 <= i < |checks|
    ensures checks[i].message in Errors(checks) <==> checks[i].fails
  {
    ErrorsMembers(checks, checks[i].message);
  }

  /** `validateStep0Partes` names a field exactly when that field is blank. */
  lemma PartesMessages(f: Form)
    requires PartesFields(f)
    ensures NomeMsg in Errors(PartesChecks(f)) <==> Blank(Field(f, "prestadorNome"))
    ensures CpfMsg in Errors(PartesChecks(f)) <==> Blank(Field(f, "prestadorCpf"))
    ensures EmailMsg in Errors(PartesChecks(f)) <==> Blank(Field(f, "prestadorEmail"))
    ensures EnderecoMsg in Errors(PartesChecks(f)) <==> Blank(Field(f, "prestadorEndereco"))
  {
    var checks := PartesChecks(f);
    PartesDistinct();
    MessagesOfFour(checks);
    assert checks[0].message == NomeMsg && checks[1].message == CpfMsg;
    assert checks[2].message == EmailMsg && checks[3].message == EnderecoMsg;
  }

  lemma PartesDistinct()
    ensures NomeMsg != CpfMsg && NomeMsg != EmailMsg && NomeMsg != EnderecoMsg
    ensures CpfMsg != EmailMsg && CpfMsg != EnderecoMsg && EmailMsg != EnderecoMsg
  {
    assert NomeMsg[0] == 'N' && CpfMsg[0] == 'C' && EmailMsg[0] == 'E' && EnderecoMsg[0] == 'E';
    assert EmailMsg[1] == '-' && EnderecoMsg[1] == 'n';
  }

  /** In four checks with distinct messages, a message is reported exactly when its check fails. */
  lemma MessagesOfFour(checks: seq<Check>)
    requires |checks| == 4
    requires forall j, k :: 0 <= j < k < 4 ==> checks[j].message != checks[k].message
    ensures forall i :: 0 <= i < 4 ==> (checks[i].message in Errors(checks) <==> checks[i].fails)
  {
    forall i | 0 <= i < 4
      ensures checks[i].message in Errors(checks) <==> checks[i].fails
    {
      DistinctMessages(checks, i);
    }
  }

  /** `validateStep1Parametros` names a field exactly when that field is blank. */
  lemma ParametrosMessages(f: Form)
    requires ParametrosFields(f)
    ensures InicioMsg in Errors(ParametrosChecks(f)) <==> Blank(Field(f, "dataInicio"))
    ensures ValorMsg in Errors(ParametrosChecks(f)) <==> BlankText(Field(f, "valorTotal"))
    ensures CidadeMsg in Errors(ParametrosChecks(f)) <==> Blank(Field(f, "foroCidade"))
    ensures UfMsg in Errors(ParametrosChecks(f)) <==> Blank(Field(f, "foroUf"))
  {
    var checks := ParametrosChecks(f);
    ParametrosDistinct();
    MessagesOfFour(checks);
    assert checks[0].message == InicioMsg && checks[1].message == ValorMsg;
    assert checks[2].message == CidadeMsg && checks[3].message == UfMsg;
  }

  lemma ParametrosDistinct()
    ensures InicioMsg != ValorMsg && InicioMsg != CidadeMsg && InicioMsg != UfMsg
    ensures ValorMsg != CidadeMsg && ValorMsg != UfMsg && CidadeMsg != UfMsg
  {
    assert InicioMsg[0] == 'D' && ValorMsg[0] == 'V' && CidadeMsg[0] == 'F' && UfMsg[0] == 'F';
    assert CidadeMsg[6] == 'c' && UfMsg[6] == 'U';
  }

  /** What the branches of `validateStep2Servico` append. */
  lemma ServicoErrors(f: Form)
    requires ServicoFields(f)
    ensures var e := Errors(ServicoChecks(f));
      if Field(f, "tipoDocumento") == Str("contrato") then
        e == (if !Truthy(Field(f, "servicoChave")) then [ServicoMsg] else [])
           + (if Field(f, "servicoChave") == Str("custom") then
                (if Blank(Field(f, "servicoCustomTitulo")) then [TituloMsg] else [])
                + (if Blank(Field(f, "servicoCustomEscopo")) then [EscopoMsg] else [])
              else [])
      else e == (if Blank(Field(f, "dataDistrato")) then [DistratoMsg] else [])
  {
    var checks := ServicoChecks(f);
    if Field(f, "tipoDocumento") == Str("contrato") {
      var first := [Check(!Truthy(Field(f, "servicoChave")), ServicoMsg)];
      var rest: seq<Check> := if Field(f, "servicoChave") == Str("custom") then
          [ Check(Blank(Field(f, "servicoCustomTitulo")), TituloMsg),
            Check(Blank(Field(f, "servicoCustomEscopo")), EscopoMsg) ]
        else [];
      ErrorsAppend(first, rest);
      assert first[1..] == [];
      if rest != [] {
        assert rest[1..][1..] == [];
      }
    } else {
      assert checks[1..] == [];
    }
  }

  lemma InitialPrestador()
    ensures Field(InitialForm(), "prestadorNome") == Str("") && Field(InitialForm(), "prestadorCpf") == Str("")
  {
  }

  lemma InitialContato()
    ensures Field(InitialForm(), "prestadorEmail") == Str("") && Field(InitialForm(), "prestadorEndereco") == Str("")
  {
  }

  lemma InitialDatas()
    ensures Field(InitialForm(), "dataInicio") == Str("") && Field(InitialForm(), "valorTotal") == Str("")
  {
  }

  lemma InitialForo()
    ensures Field(InitialForm(), "foroCidade") == Str("São José dos Campos") && Field(InitialForm(), "foroUf") == Str("SP")
  {
  }

  lemma InitialServico()
    ensures Field(InitialForm(), "tipoDocumento") == Str("contrato") && Field(InitialForm(), "servicoChave") == Undefined
  {
  }

  lemma InitialCustom()
    ensures Field(InitialForm(), "servicoCustomTitulo") == Str("") && Field(InitialForm(), "servicoCustomEscopo") == Str("")
    ensures Field(InitialForm(), "dataDistrato") == Str("")
  {
  }

  /** The form the wizard starts from: every empty required field of the first two steps is reported. */
  lemma InitialFormErrors()
    ensures PartesFields(InitialForm()) && ParametrosFields(InitialForm())
    ensures Errors(PartesChecks(InitialForm())) == [NomeMsg, CpfMsg, EmailMsg, EnderecoMsg]
    ensures Errors(ParametrosChecks(InitialForm())) == [InicioMsg, ValorMsg]
  {
    InitialPrestador();
    InitialContato();
    InitialDatas();
    InitialForo();
    InitialForoFilled();
    EmptyPartesErrors(InitialForm());
    EmptyParametrosErrors(InitialForm());
  }

  lemma InitialForoFilled()
    ensures !Blank(Str("São José dos Campos")) && !Blank(Str("SP"))
  {
    assert "São José dos Campos"[0] == 'S' && "SP"[0] == 'S';
  }

  lemma EmptyPartesErrors(f: Form)
    requires Field(f, "prestadorNome") == Str("") && Field(f, "prestadorCpf") == Str("")
    requires Field(f, "prestadorEmail") == Str("") && Field(f, "prestadorEndereco") == Str("")
    ensures PartesFields(f)
    ensures Errors(PartesChecks(f)) == [NomeMsg, CpfMsg, EmailMsg, EnderecoMsg]
  {
    var checks := PartesChecks(f);
    assert checks[0].fails && checks[1].fails && checks[2].fails && checks[3].fails by { EmptyBlank(); }
    ErrorsOfFour(checks);
  }

  lemma EmptyParametrosErrors(f: Form)
    requires Field(f, "dataInicio") == Str("") && Field(f, "valorTotal") == Str("")
    requires IsText(Field(f, "foroCidade")) && !Blank(Field(f, "foroCidade"))
    requires IsText(Field(f, "foroUf")) && !Blank(Field(f, "foroUf"))
    ensures ParametrosFields(f)
    ensures Errors(ParametrosChecks(f)) == [InicioMsg, ValorMsg]
  {
    var checks := ParametrosChecks(f);
    assert checks[0].fails && checks[1].fails by { EmptyBlank(); }
    assert !checks[2].fails && !checks[3].fails;
    ErrorsOfFour(checks);
  }

  lemma EmptyBlank()
    ensures Blank(Str("")) && BlankText(Str(""))
  {
  }

  /** On the initial form a contract with no service chosen yet reports exactly that. */
  lemma InitialServicoErrors()
    ensures ServicoFields(InitialForm())
    ensures Errors(ServicoChecks(InitialForm())) == [ServicoMsg]
  {
    InitialServico();
    InitialCustom();
    ServicoErrors(InitialForm());
  }
}
