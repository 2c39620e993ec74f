/**
 * The contract wizard's form (`ContractFormData`, src/types/contracts.ts):
 * a plain object whose fields are read by name. An absent field reads as
 * `undefined`, and a field can hold `undefined` explicitly, as
 * `servicoChave` does in the initial form.
 */
module ContractForm {
  import opened Js

  type Form = map<string, JsValue>

  /** `f.name`, `undefined` when the field is absent. */
  function Field(f: Form, name: string): JsValue {
    Lookup(f, name)
  }

  /** The value the form starts from (and `resetForm` returns). */
  function InitialForm(): Form {
    map[
      "contratanteRazao" := Str("D HOUSE AGÊNCIA DE PUBLICIDADE LTDA"),
      "contratanteCnpj" := Str("18.319.139/0001-68"),
      "contratanteEndereco" := Str("Rua Teopompo de Vasconcelos, 161 ap 22-Vila Adyana-São José dos Campos/SP"),
      "prestadorNome" := Str(""),
      "prestadorCpf" := Str(""),
      "prestadorRg" := Str(""),
      "prestadorEmail" := Str(""),
      "prestadorTelefone" := Str(""),
      "prestadorEndereco" := Str(""),
      "dataInicio" := Str(""),
      "dataFim" := Str(""),
      "valorTotal" := Str(""),
      "formaPagamento" := Str("PIX"),
      "diaVencimento" := Str(""),
      "banco" := Str(""),
      "agencia" := Str(""),
      "conta" := Str(""),
      "pix" := Str(""),
      "foroCidade" := Str("São José dos Campos"),
      "foroUf" := Str("SP"),
      "tipoDocumento" := Str("contrato"),
      "servicoChave" := Undefined,
      "servicoCustomTitulo" := Str(""),
      "servicoCustomEscopo" := Str(""),
      "servicoCustomClausulas" := Str(""),
      "params" := Obj(map[]),
      "dataDistrato" := Str(""),
      "valorAcerto" := Str(""),
      "prazoDevolucao" := Str("")
    ]
  }
}
