/**
 * The placeholder map of a contract or distrato (src/pdf/buildMap.ts): the
 * form's fields under their placeholder names, the common parameters with
 * their defaults, the distrato fields, and finally the overrides in
 * `form.params`. Dates are parsed strictly as `YYYY-MM-DD` in UTC and the
 * contract's length is counted in days, both ends included.
 *
 * Dates follow the time values of ECMAScript (`Date.UTC`, `MakeDay`,
 * `DayFromYear`): a time value is a whole number of milliseconds since
 * 1970-01-01 UTC. The locale currency formatter is a parameter.
 */
module BuildMap {
  import opened Js
  import opened Money
  import opened ContractForm

  // ---------------------------------------------------------------- dates

  const MsPerDay := 86_400_000

  /** Whether `y` has 366 days in the proleptic Gregorian calendar. */
  predicate InLeapYear(y: int) {
    y % 4 == 0 && (y % 100 != 0 || y % 400 == 0)
  }

  function DaysInYear(y: int): int {
    if InLeapYear(y) then 366 else 365
  }

  /** `DayFromYear(y)`: the day number of 1 January of year `y`. */
  function DayFromYear(y: int): int {
    365 * (y - 1970) + (y - 1969) / 4 - (y - 1901) / 100 + (y - 1601) / 400
  }

  /** The days of year `y` before the first of month `mn` (0 is January). */
  function DaysBeforeMonth(y: int, mn: int): int
    requires 0 <= mn < 12
  {
    var leap := if InLeapYear(y) && mn >= 2 then 1 else 0;
    leap + match mn
      case 0 => 0 case 1 => 31 case 2 => 59 case 3 => 90
      case 4 => 120 case 5 => 151 case 6 => 181 case 7 => 212
      case 8 => 243 case 9 => 273 case 10 => 304 case _ => 334
  }

  /** `MakeDay(year, month, date)`: months past December carry into the next years. */
  function MakeDay(year: int, month: nat, date: int): int {
    var ym := year + month / 12;
    var mn := month % 12;
    DayFromYear(ym) + DaysBeforeMonth(ym, mn) + date - 1
  }

  /** The year `Date.UTC` uses: 0..99 stand for 1900..1999. */
  function FullYear(y: int): int {
    if 0 <= y <= 99 then 1900 + y else y
  }

  /** `Date.UTC(y, month, date)` for a month index `month >= 0`. */
  function DateUtc(y: int, month: nat, date: int): int {
    MakeDay(FullYear(y), month, date) * MsPerDay
  }

  /** `/^(\d{4})-(\d{2})-(\d{2})$/` */
  predicate IsoShape(t: string) {
    |t| == 10 && AllDigits(t[..4]) && t[4] == '-' && AllDigits(t[5..7]) && t[7] == '-' && AllDigits(t[8..])
  }

  function IsoYear(t: string): nat
    requires IsoShape(t)
  {
    DigitsValue(t[..4])
  }

  function IsoMonth(t: string): nat
    requires IsoShape(t)
  {
    DigitsValue(t[5..7])
  }

  function IsoDay(t: string): nat
    requires IsoShape(t)
  {
    DigitsValue(t[8..])
  }

  /** The dates `parseISODateUTC` accepts: the exact shape with no zero year, month or day. */
  predicate ValidIso(v: JsValue) {
    Truthy(v) && IsoShape(ToStr(v))
    && IsoYear(ToStr(v)) != 0 && IsoMonth(ToStr(v)) != 0 && IsoDay(ToStr(v)) != 0
  }

  /**
   * `parseISODateUTC(iso)`: the time value of the date, or `None` (null).
   * The regular expression reads `String(iso)`.
   */
  function ParseIsoDate(v: JsValue): (r: Option<int>)
    ensures r.Some? <==> ValidIso(v)
  {
    if !Truthy(v) then None
    else
      var t := ToStr(v);
      if !IsoShape(t) then None
      else
        var y, mo, d := IsoYear(t), IsoMonth(t), IsoDay(t);
        if y == 0 || mo == 0 || d == 0 then None
        else Some(DateUtc(y, mo - 1, d))
  }

  /** The day number of a valid date. */
  function IsoDayNumber(v: JsValue): int
    requires ValidIso(v)
  {
    var t := ToStr(v);
    MakeDay(FullYear(IsoYear(t)), IsoMonth(t) - 1, IsoDay(t))
  }

  /** `diffDaysInclusive(start, end)`: 1 when either date is invalid, and never less than 1. */
  function DiffDaysInclusive(start: JsValue, end: JsValue): (r: int)
    ensures r >= 1
    ensures !ValidIso(start) || !ValidIso(end) ==> r == 1
    ensures ValidIso(start) && ValidIso(end) ==>
              r == if IsoDayNumber(end) - IsoDayNumber(start) + 1 > 0
                   then IsoDayNumber(end) - IsoDayNumber(start) + 1 else 1
  {
    var a := ParseIsoDate(start);
    var b := ParseIsoDate(end);
    if a.None? || b.None? then 1
    else
      var ms := b.value - a.value;
      var days := ms / MsPerDay + 1;
      DaysOfMs(IsoDayNumber(end), IsoDayNumber(start));
      if days > 0 then days else 1
  }

  // ----------------------------------------------------------- formatting

  /** `/[.,]\d{2}$/`: ends with a separator and two digits. */
  predicate EndsWithCents(s: string) {
    |s| >= 3 && (s[|s| - 3] == '.' || s[|s| - 3] == ',') && IsDigit(s[|s| - 2]) && IsDigit(s[|s| - 1])
  }

  /**
   * `toBRLNoSymbol(v)`. `formatBrl(h)` stands for the pt-BR currency text of
   * `h` hundredths with the `R$` symbol removed and trimmed.
   */
  function ToBrlNoSymbol(v: JsValue, formatBrl: int -> string): string {
    match v
    case Undefined => ""
    case Null => ""
    case Str(s) =>
      if EndsWithCents(s) || '.' in s then s
      else
        (match StringToNumber(FirstCommaToDot(s))
         case Num(h) => formatBrl(h)
         case _ => s)
    case Num(h) => formatBrl(h)
    case _ => ToStr(v)
  }

  // ------------------------------------------------------------------ map

  const CustomTitle := "Serviço Customizado"
  const MultaKey := "NAO_CONCORRENCIA_MULTA_VALOR"

  /** `servicoTitulo`: the custom title (or a fixed fallback) for a custom service, else the template's title. */
  function ServicoTitulo(form: Form, service: JsValue): (r: JsValue)
    ensures Truthy(r) || r == Str("")
    ensures Field(form, "servicoChave") == Str("custom") ==> Truthy(r)
  {
    if Field(form, "servicoChave") == Str("custom") then Or(Field(form, "servicoCustomTitulo"), Str(CustomTitle))
    else Or(Prop(service, "titulo"), Str(""))
  }

  /** The form's fields under their placeholder names. */
  function FormPart(form: Form, service: JsValue): map<string, JsValue> {
    map[
      "CONTRATANTE_RAZAO" := Field(form, "contratanteRazao"),
      "CONTRATANTE_CNPJ" := Field(form, "contratanteCnpj"),
      "CONTRATANTE_ENDERECO" := Field(form, "contratanteEndereco"),
      "PRESTADOR_NOME" := Field(form, "prestadorNome"),
      "PRESTADOR_CPF" := Field(form, "prestadorCpf"),
      "PRESTADOR_RG" := Field(form, "prestadorRg"),
      "PRESTADOR_EMAIL" := Field(form, "prestadorEmail"),
      "PRESTADOR_ENDERECO" := Field(form, "prestadorEndereco"),
      "PRESTADOR_TELEFONE" := Field(form, "prestadorTelefone"),
      "SERVICO_TITULO" := ServicoTitulo(form, service),
      "DATA_INICIO" := Field(form, "dataInicio"),
      "DATA_FIM" := Field(form, "dataFim"),
      "VALOR_TOTAL" := Field(form, "valorTotal"),
      "FORMA_PAGAMENTO" := Field(form, "formaPagamento"),
      "DIA_VENCIMENTO" := Field(form, "diaVencimento"),
      "BANCO" := Field(form, "banco"),
      "AGENCIA" := Field(form, "agencia"),
      "CONTA" := Field(form, "conta"),
      "PIX" := Field(form, "pix"),
      "FORO_CIDADE" := Field(form, "foroCidade"),
      "FORO_UF" := Field(form, "foroUf")
    ]
  }

  /** The common parameters with their defaults. */
  function Defaults(form: Form, formatBrl: int -> string): map<string, JsValue> {
    map[
      "VIGENCIA_DIAS" := Whole(DiffDaysInclusive(Field(form, "dataInicio"), Field(form, "dataFim"))),
      "PRAZO_PAGAMENTO_DIAS" := Whole(10),
      "FORCA_MAIOR_DIAS" := Whole(60),
      "NAO_CONCORRENCIA_MESES" := Whole(6),
      MultaKey := Str(ToBrlNoSymbol(Str("20000"), formatBrl)),
      "AVISO_PREVIO_DIAS" := Whole(1),
      "MULTA_PERCENTUAL" := Whole(10)
    ]
  }

  /** The distrato fields. */
  function DistratoPart(form: Form): map<string, JsValue> {
    map[
      "DATA_DISTRATO" := Field(form, "dataDistrato"),
      "VALOR_ACERTO" := Field(form, "valorAcerto"),
      "PRAZO_DEVOLUCAO" := Field(form, "prazoDevolucao"),
      "DATA_ACERTO" := Field(form, "dataAcerto")
    ]
  }

  /** The fields of `form.params`, copied by `{ ...(form.params || {}) }`. */
  function GivenParams(form: Form): map<string, JsValue> {
    SpreadFields(Or(Field(form, "params"), Obj(map[])))
  }

  /** `params`: a copy of `form.params` whose penalty amount, when given, is formatted. */
  function Params(form: Form, formatBrl: int -> string): (r: map<string, JsValue>)
    ensures r.Keys == GivenParams(form).Keys
    ensures forall k :: k in r && k != MultaKey ==> r[k] == GivenParams(form)[k]
    ensures Lookup(GivenParams(form), MultaKey) != Undefined ==>
              r[MultaKey] == Str(ToBrlNoSymbol(GivenParams(form)[MultaKey], formatBrl))
    ensures Lookup(GivenParams(form), MultaKey) == Undefined ==> r == GivenParams(form)
  {
    var p := GivenParams(form);
    if Lookup(p, MultaKey) != Undefined then p[MultaKey := Str(ToBrlNoSymbol(p[MultaKey], formatBrl))] else p
  }

  /** `buildPlaceholderMap(form, service)`: later groups override earlier ones. */
  function BuildPlaceholderMap(form: Form, service: JsValue, formatBrl: int -> string): map<string, JsValue> {
    FormPart(form, service) + Defaults(form, formatBrl) + DistratoPart(form) + Params(form, formatBrl)
  }

  // ---------------------------------------------------------- date lemmas

  /** A difference of whole days in milliseconds, divided back, is the difference in days. */
  lemma DaysOfMs(b: int, a: int)
    ensures (b * MsPerDay - a * MsPerDay) / MsPerDay == b - a
  {
    assert b * MsPerDay - a * MsPerDay == (b - a) * MsPerDay;
    DivUnique((b - a) * MsPerDay, MsPerDay, b - a, 0);
  }

  /** Stepping `x` by one raises `x / k` by one exactly when `x + 1` is a multiple of `k`. */
  lemma FloorStep(x: int, k: int)
    requires k > 0
    ensures (x + 1) / k - x / k == if (x + 1) % k == 0 then 1 else 0
  {
    var q, r := x / k, x % k;
    assert x == q * k + r;
    if r == k - 1 {
      DivUnique(x + 1, k, q + 1, 0);
    } else {
      DivUnique(x + 1, k, q, r + 1);
      assert (x + 1) % k == r + 1;
    }
  }

  /** Shifting by a multiple of `k` keeps the remainder. */
  lemma ModShift(x: int, c: int, k: int)
    requires k > 0
    ensures (x - c * k) % k == x % k
  {
    var q, r := x / k, x % k;
    assert x - c * k == (q - c) * k + r;
    DivUnique(x - c * k, k, q - c, r);
  }

  /** Consecutive `DayFromYear`s are a year's length apart. */
  lemma DayFromYearStep(y: int)
    ensures DayFromYear(y + 1) - DayFromYear(y) == DaysInYear(y)
  {
    FloorStep(y - 1969, 4);
    FloorStep(y - 1901, 100);
    FloorStep(y - 1601, 400);
    ModShift(y, 492, 4);
    ModShift(y, 19, 100);
    ModShift(y, 4, 400);
  }

  /** The same date at both ends counts one day. */
  lemma SameDateIsOneDay(v: JsValue)
    ensures DiffDaysInclusive(v, v) == 1
  {
  }

  /** Within one month, the count is the difference of the days plus one (and 1 when the end comes first). */
  lemma SameMonthDays(s: string, e: string)
    requires ValidIso(Str(s)) && ValidIso(Str(e)) && s[..8] == e[..8]
    ensures DiffDaysInclusive(Str(s), Str(e)) == if IsoDay(e) >= IsoDay(s) then IsoDay(e) - IsoDay(s) + 1 else 1
  {
    assert IsoYear(s) == IsoYear(e) && IsoMonth(s) == IsoMonth(e) by {
      assert s[..4] == s[..8][..4] == e[..8][..4] == e[..4];
      assert s[5..7] == s[..8][5..7] == e[..8][5..7] == e[5..7];
    }
    assert IsoDayNumber(Str(e)) - IsoDayNumber(Str(s)) == IsoDay(e) - IsoDay(s);
  }

  /** From 1 January to 31 December of one year the count is that year's length. */
  lemma WholeYearDays(s: string, e: string)
    requires ValidIso(Str(s)) && ValidIso(Str(e)) && s[..4] == e[..4] && IsoYear(s) >= 100
    requires IsoMonth(s) == 1 && IsoDay(s) == 1 && IsoMonth(e) == 12 && IsoDay(e) == 31
    ensures DiffDaysInclusive(Str(s), Str(e)) == DaysInYear(IsoYear(s))
  {
  }

  /** From 31 December to the next 1 January the count is 2. */
  lemma NewYearDays(s: string, e: string)
    requires ValidIso(Str(s)) && ValidIso(Str(e)) && 100 <= IsoYear(s) && IsoYear(e) == IsoYear(s) + 1
    requires IsoMonth(s) == 12 && IsoDay(s) == 31 && IsoMonth(e) == 1 && IsoDay(e) == 1
    ensures DiffDaysInclusive(Str(s), Str(e)) == 2
  {
    var y := IsoYear(s);
    DayFromYearStep(y);
    assert IsoDayNumber(Str(s)) == DayFromYear(y) + DaysInYear(y) - 1;
    assert IsoDayNumber(Str(e)) == DayFromYear(y + 1);
  }

  /** `MakeDay` carries a thirteenth month into January of the next year. */
  lemma MakeDayCarry(y: int, d: int)
    ensures MakeDay(y, 12, d) == MakeDay(y + 1, 0, d)
  {
  }

  /** So month `13` of a year is accepted and read as January of the next year. */
  lemma MonthThirteen(s: string, e: string)
    requires ValidIso(Str(s)) && ValidIso(Str(e)) && 100 <= IsoYear(s) && IsoYear(e) == IsoYear(s) + 1
    requires IsoMonth(s) == 13 && IsoMonth(e) == 1 && IsoDay(s) == IsoDay(e)
    ensures ParseIsoDate(Str(s)) == ParseIsoDate(Str(e))
  {
    MakeDayCarry(IsoYear(s), IsoDay(s));
  }

  /** A two-digit year `00yy` stands for `19yy`. */
  lemma TwoDigitYear(y: int, month: nat, d: int)
    requires 1 <= y <= 99
    ensures DateUtc(y, month, d) == DateUtc(1900 + y, month, d)
  {
  }

  // ---------------------------------------------------- formatting lemmas

  /** `undefined` and `null` give the empty text. */
  lemma ToBrlNullish(v: JsValue, formatBrl: int -> string)
    requires v.Undefined? || v.Null?
    ensures ToBrlNoSymbol(v, formatBrl) == ""
  {
  }

  /** Text that already looks formatted is returned as it is. */
  lemma ToBrlAlreadyFormatted(s: string, formatBrl: int -> string)
    requires EndsWithCents(s) || '.' in s
    ensures ToBrlNoSymbol(Str(s), formatBrl) == s
  {
  }

  /** Text that does not start like a number (nor with blanks) is returned as it is. */
  lemma ToBrlNonNumeric(s: string, formatBrl: int -> string)
    requires s != [] && !IsSpace(s[|s| - 1])
    requires !IsDigit(s[0]) && s[0] != '-' && s[0] != '+' && s[0] != '.' && s[0] != ',' && !IsSpace(s[0])
    ensures ToBrlNoSymbol(Str(s), formatBrl) == s
  {
    var c := FirstCommaToDot(s);
    assert c[0] == s[0];
    assert c[|c| - 1] == s[|s| - 1] || c[|c| - 1] == '.';
    NonNumericText(c);
  }

  lemma NonNumericText(c: string)
    requires c != [] && !IsSpace(c[|c| - 1])
    requires !IsDigit(c[0]) && c[0] != '-' && c[0] != '+' && c[0] != '.' && !IsSpace(c[0])
    ensures StringToNumber(c) == NaN
  {
    TrimUnchanged(c);
    assert Unsigned(c) == c;
    assert DigitPrefixLength(c) == 0;
  }

  /** Whole digits, or digits with a decimal comma not followed by exactly two digits, are formatted by value. */
  lemma ToBrlOfDecimal(d: string, fd: string, formatBrl: int -> string)
    requires d != [] && AllDigits(d) && AllDigits(fd) && |fd| != 2
    ensures ToBrlNoSymbol(Str(d + (if fd == [] then [] else [','] + fd)), formatBrl)
         == formatBrl(DecimalHundredths(d, fd))
  {
    var s := d + (if fd == [] then [] else [','] + fd);
    DecimalNotFormatted(d, fd);
    NumberOfCommaDecimal(d, fd);
    ToBrlOfNumberText(s, DecimalHundredths(d, fd), formatBrl);
  }

  /** Text that is not already formatted and reads as a number is formatted by value. */
  lemma ToBrlOfNumberText(s: string, h: int, formatBrl: int -> string)
    requires !EndsWithCents(s) && '.' !in s
    requires StringToNumber(FirstCommaToDot(s)) == Num(h)
    ensures ToBrlNoSymbol(Str(s), formatBrl) == formatBrl(h)
  {
    UnformattedText(s, formatBrl);
  }

  lemma UnformattedText(s: string, formatBrl: int -> string)
    requires !EndsWithCents(s) && '.' !in s
    ensures ToBrlNoSymbol(Str(s), formatBrl)
         == match StringToNumber(FirstCommaToDot(s)) case Num(h) => formatBrl(h) case _ => s
  {
  }

  /** Such text neither ends in a separator and two digits nor holds a `.`. */
  lemma DecimalNotFormatted(d: string, fd: string)
    requires d != [] && AllDigits(d) && AllDigits(fd) && |fd| != 2
    ensures var s := d + (if fd == [] then [] else [','] + fd);
      !EndsWithCents(s) && '.' !in s
  {
    var s := d + (if fd == [] then [] else [','] + fd);
    if |s| >= 3 {
      if fd == [] {
        assert s[|s| - 3] == d[|d| - 3];
      } else if |fd| == 1 {
        assert s[|s| - 3] == d[|d| - 1];
      } else {
        assert s[|s| - 3] == fd[|fd| - 3];
      }
    }
    assert forall i :: 0 <= i < |s| ==> s[i] == ',' || IsDigit(s[i]);
  }

  /** `Number(s.replace(",", "."))` of digits with an optional decimal comma. */
  lemma NumberOfCommaDecimal(d: string, fd: string)
    requires d != [] && AllDigits(d) && AllDigits(fd)
    ensures StringToNumber(FirstCommaToDot(d + (if fd == [] then [] else [','] + fd)))
         == Num(DecimalHundredths(d, fd))
  {
    var s := d + (if fd == [] then [] else [','] + fd);
    var u := d + (if fd == [] then [] else ['.'] + fd);
    CommaDecimalToDot(s, d, fd);
    UnsignedDecimalOf(d, fd);
    assert u[|u| - 1] == (if fd == [] then d[|d| - 1] else fd[|fd| - 1]);
    StringToNumberOfLiteral(u, DecimalHundredths(d, fd));
  }

  /** A blank amount is formatted as zero, since `Number("")` is 0. */
  lemma ToBrlBlank(formatBrl: int -> string)
    ensures ToBrlNoSymbol(Str(""), formatBrl) == formatBrl(0)
  {
  }

  /** The default penalty amount is 20 000 formatted. */
  lemma DefaultPenalty(formatBrl: int -> string)
    ensures ToBrlNoSymbol(Str("20000"), formatBrl) == formatBrl(2000000)
  {
    var d := "20000";
    assert AllDigits(d) && DecimalHundredths(d, "") == 2000000 by {
      assert DigitsValue("2") == 2 by { assert "2"[..0] == ""; }
      assert DigitsValue("20") == 20 by { assert "20"[..1] == "2"; }
      assert DigitsValue("200") == 200 by { assert "200"[..2] == "20"; }
      assert DigitsValue("2000") == 2000 by { assert "2000"[..3] == "200"; }
      assert DigitsValue("20000") == 20000 by { assert "20000"[..4] == "2000"; }
    }
    ToBrlOfDecimal(d, "", formatBrl);
    assert d + [] == d;
  }

  // ----------------------------------------------------------- map lemmas

  /** Every placeholder comes from one of the four groups. */
  lemma BuildMapKeys(form: Form, service: JsValue, formatBrl: int -> string)
    ensures BuildPlaceholderMap(form, service, formatBrl).Keys
         == FormPart(form, service).Keys + Defaults(form, formatBrl).Keys + DistratoPart(form).Keys
            + GivenParams(form).Keys
  {
  }

  /** `form.params` wins over everything else. */
  lemma ParamsWin(form: Form, service: JsValue, formatBrl: int -> string, k: string)
    requires k in GivenParams(form)
    ensures BuildPlaceholderMap(form, service, formatBrl)[k] == Params(form, formatBrl)[k]
    ensures k != MultaKey ==> BuildPlaceholderMap(form, service, formatBrl)[k] == GivenParams(form)[k]
  {
  }

  /** A default holds unless `form.params` overrides it (no distrato field shares its name). */
  lemma DefaultsWin(form: Form, service: JsValue, formatBrl: int -> string, k: string)
    requires k in Defaults(form, formatBrl) && k !in DistratoPart(form) && k !in GivenParams(form)
    ensures BuildPlaceholderMap(form, service, formatBrl)[k] == Defaults(form, formatBrl)[k]
  {
  }

  /** A form-derived field holds unless a default or `form.params` has the same name. */
  lemma FormFieldsLose(form: Form, service: JsValue, formatBrl: int -> string, k: string)
    requires k in FormPart(form, service)
    requires k !in Defaults(form, formatBrl) && k !in DistratoPart(form) && k !in GivenParams(form)
    ensures BuildPlaceholderMap(form, service, formatBrl)[k] == FormPart(form, service)[k]
  {
  }

  /** Ten days to pay, when not overridden. */
  lemma DefaultPaymentDays(form: Form, service: JsValue, formatBrl: int -> string)
    requires "PRAZO_PAGAMENTO_DIAS" !in GivenParams(form)
    ensures BuildPlaceholderMap(form, service, formatBrl)["PRAZO_PAGAMENTO_DIAS"] == Whole(10)
  {
    assert "PRAZO_PAGAMENTO_DIAS" !in DistratoPart(form);
    assert Defaults(form, formatBrl)["PRAZO_PAGAMENTO_DIAS"] == Whole(10);
    DefaultsWin(form, service, formatBrl, "PRAZO_PAGAMENTO_DIAS");
  }

  /** Sixty days of force majeure, when not overridden. */
  lemma DefaultForceMajeureDays(form: Form, service: JsValue, formatBrl: int -> string)
    requires "FORCA_MAIOR_DIAS" !in GivenParams(form)
    ensures BuildPlaceholderMap(form, service, formatBrl)["FORCA_MAIOR_DIAS"] == Whole(60)
  {
    assert "FORCA_MAIOR_DIAS" !in DistratoPart(form);
    assert Defaults(form, formatBrl)["FORCA_MAIOR_DIAS"] == Whole(60);
    DefaultsWin(form, service, formatBrl, "FORCA_MAIOR_DIAS");
  }

  /** One day of notice, when not overridden. */
  lemma DefaultNoticeDays(form: Form, service: JsValue, formatBrl: int -> string)
    requires "AVISO_PREVIO_DIAS" !in GivenParams(form)
    ensures BuildPlaceholderMap(form, service, formatBrl)["AVISO_PREVIO_DIAS"] == Whole(1)
  {
    assert "AVISO_PREVIO_DIAS" !in DistratoPart(form);
    assert Defaults(form, formatBrl)["AVISO_PREVIO_DIAS"] == Whole(1);
    DefaultsWin(form, service, formatBrl, "AVISO_PREVIO_DIAS");
  }

  /** A ten per cent fine, when not overridden. */
  lemma DefaultFinePercent(form: Form, service: JsValue, formatBrl: int -> string)
    requires "MULTA_PERCENTUAL" !in GivenParams(form)
    ensures BuildPlaceholderMap(form, service, formatBrl)["MULTA_PERCENTUAL"] == Whole(10)
  {
    assert "MULTA_PERCENTUAL" !in DistratoPart(form);
    assert Defaults(form, formatBrl)["MULTA_PERCENTUAL"] == Whole(10);
    DefaultsWin(form, service, formatBrl, "MULTA_PERCENTUAL");
  }

  /** Six months of non-competition, when not overridden. */
  lemma DefaultMonths(form: Form, service: JsValue, formatBrl: int -> string)
    requires "NAO_CONCORRENCIA_MESES" !in GivenParams(form)
    ensures BuildPlaceholderMap(form, service, formatBrl)["NAO_CONCORRENCIA_MESES"] == Whole(6)
  {
    assert "NAO_CONCORRENCIA_MESES" !in DistratoPart(form);
    assert Defaults(form, formatBrl)["NAO_CONCORRENCIA_MESES"] == Whole(6);
    DefaultsWin(form, service, formatBrl, "NAO_CONCORRENCIA_MESES");
  }

  /** `VIGENCIA_DIAS` is the inclusive day count from `dataInicio` to `dataFim`, unless overridden. */
  lemma VigenciaDias(form: Form, service: JsValue, formatBrl: int -> string)
    requires "VIGENCIA_DIAS" !in GivenParams(form)
    ensures BuildPlaceholderMap(form, service, formatBrl)["VIGENCIA_DIAS"]
         == Whole(DiffDaysInclusive(Field(form, "dataInicio"), Field(form, "dataFim")))
  {
    assert "VIGENCIA_DIAS" !in DistratoPart(form);
    assert Defaults(form, formatBrl)["VIGENCIA_DIAS"]
        == Whole(DiffDaysInclusive(Field(form, "dataInicio"), Field(form, "dataFim")));
    DefaultsWin(form, service, formatBrl, "VIGENCIA_DIAS");
  }

  /** The penalty amount: the formatted override when one is given, else 20 000 formatted. */
  lemma PenaltyAmount(form: Form, service: JsValue, formatBrl: int -> string)
    ensures Lookup(GivenParams(form), MultaKey) != Undefined ==>
              BuildPlaceholderMap(form, service, formatBrl)[MultaKey]
              == Str(ToBrlNoSymbol(GivenParams(form)[MultaKey], formatBrl))
    ensures MultaKey !in GivenParams(form) ==>
              BuildPlaceholderMap(form, service, formatBrl)[MultaKey] == Str(formatBrl(2000000))
  {
    if MultaKey !in GivenParams(form) {
      DefaultsWin(form, service, formatBrl, MultaKey);
      DefaultPenalty(formatBrl);
    }
  }

  /** The service title, unless overridden: custom title, fixed fallback, template title, or `""`. */
  lemma ServiceTitle(form: Form, service: JsValue, formatBrl: int -> string)
    requires "SERVICO_TITULO" !in GivenParams(form)
    ensures var t := BuildPlaceholderMap(form, service, formatBrl)["SERVICO_TITULO"];
      && (Field(form, "servicoChave") == Str("custom") && Truthy(Field(form, "servicoCustomTitulo"))
          ==> t == Field(form, "servicoCustomTitulo"))
      && (Field(form, "servicoChave") == Str("custom") && !Truthy(Field(form, "servicoCustomTitulo"))
          ==> t == Str(CustomTitle))
      && (Field(form, "servicoChave") != Str("custom") && Truthy(Prop(service, "titulo"))
          ==> t == Prop(service, "titulo"))
      && (Field(form, "servicoChave") != Str("custom") && !Truthy(Prop(service, "titulo"))
          ==> t == Str(""))
  {
    TitleEntry(form, service, formatBrl);
  }

  lemma TitleEntry(form: Form, service: JsValue, formatBrl: int -> string)
    requires "SERVICO_TITULO" !in GivenParams(form)
    ensures BuildPlaceholderMap(form, service, formatBrl)["SERVICO_TITULO"] == ServicoTitulo(form, service)
  {
    FormFieldsLose(form, service, formatBrl, "SERVICO_TITULO");
  }
}
