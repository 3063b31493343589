/**
 * The label vocabulary of anonimizador.py: the mapping from the entity
 * recognizer's categories, the two regime explanation tables, the display
 * classes with their fallbacks, and the inline marker a span becomes.
 */
module Labels {
  import opened Wrappers

  /** The labels the detectors attach; `Text` is the label string of the source. */
  datatype Label = Nome | Cpf | Rg | Cnpj | Telefone | Email | Data | Endereco | Org | Loc | Ip | DadoBancario
  {
    function Text(): string {
      match this
      case Nome => "[NOME]"
      case Cpf => "[CPF]"
      case Rg => "[RG]"
      case Cnpj => "[CNPJ]"
      case Telefone => "[TELEFONE]"
      case Email => "[EMAIL]"
      case Data => "[DATA]"
      case Endereco => "[ENDEREÇO]"
      case Org => "[ORG]"
      case Loc => "[LOC]"
      case Ip => "[IP]"
      case DadoBancario => "[DADO_BANCARIO]"
    }
  }

  /** Every label, the key set of the three tables. */
  const AllLabels: set<Label> := {Nome, Cpf, Rg, Cnpj, Telefone, Email, Data, Endereco, Org, Loc, Ip, DadoBancario}

  /** Distinct labels are written differently, so a marker names its label. */
  lemma TextIsInjective(a: Label, b: Label)
    ensures a.Text() == b.Text() ==> a == b
  {
  }

  /** The regime identifier that selects the first table. */
  const LgpdRegime := "lgpd"

  /** Explanation used when a label is missing from the selected table. */
  const FallbackExplanation := "Dado pessoal sensível detectado."

  /** Display class used when a label is missing from the class table. */
  const FallbackClass := "anon"

  /** The fixed pieces of every marker element: its opening, the start
      of its title attribute, the end of the opening tag, its closing. */
  const OpenClass := "<span class=\""
  const TitleOpen := "\" title=\""
  const TitleClose := "\">"
  const CloseSpan := "</span>"

  /** The recognizer's category vocabulary mapped to labels; other categories are dropped. */
  function NerLabel(category: string): (tag: Option<Label>)
    ensures tag.Some? <==> category in {"PERSON", "ORG", "GPE", "LOC", "DATE"}
    ensures tag.Some? ==> tag.value in {Nome, Org, Loc, Data}
  {
    if category == "PERSON" then Some(Nome)
    else if category == "ORG" then Some(Org)
    else if category == "GPE" || category == "LOC" then Some(Loc)
    else if category == "DATE" then Some(Data)
    else None
  }

  /** The explanation of each label under the LGPD regime. */
  function LgpdText(tag: Label): string {
    match tag
    case Nome => "Identifica diretamente uma pessoa natural — dado pessoal (art. 5º, I, LGPD)."
    case Cpf => "Número de identificação individual — dado pessoal sensível e identificador único."
    case Rg => "Documento de identificação — dado pessoal sensível (identificador oficial)."
    case Cnpj => "Identifica pessoa jurídica — não é dado pessoal, exceto se vinculado a um empresário individual."
    case Telefone => "Permite contato direto com o titular — dado pessoal (informação de contato)."
    case Email => "Identifica e possibilita contato digital com o titular — dado pessoal (identificador digital)."
    case Data => "Pode revelar idade ou informações sobre o titular — dado pessoal (informação biográfica)."
    case Endereco => "Permite localização física do titular — dado pessoal (dado de localização)."
    case Org => "Identifica uma organização associada ao titular — dado pessoal indireto."
    case Loc => "Revela local ou região associada ao titular — dado pessoal indireto."
    case Ip => "Identifica dispositivos e localização aproximada — dado pessoal."
    case DadoBancario => "Inclui informações financeiras como conta, agência, cartão ou chave PIX — dado pessoal de alto risco (não sensível pela LGPD, mas requer proteção reforçada)."
  }

  const LgpdExplanations: map<Label, string> := map tag | tag in AllLabels :: LgpdText(tag)

  /** The explanation of each label under the GDPR regime. */
  function GdprText(tag: Label): string {
    match tag
    case Nome => "Personal data: identifica diretamente uma pessoa natural (GDPR Art. 4(1))."
    case Cpf => "Identificador único equivalente a 'national identification number'. Sob a GDPR, é dado pessoal de alto risco que exige proteção reforçada."
    case Rg => "Identificador oficial nacional — considerado 'unique identifier' pela GDPR, exigindo medidas adicionais (GDPR Art. 87)."
    case Cnpj => "Identifica pessoa jurídica — não é personal data sob a GDPR, exceto se associado a empresário individual (identifiable natural person)."
    case Telefone => "Informação de contato que identifica ou pode identificar um titular — personal data (GDPR Art. 4(1))."
    case Email => "Identificador digital direto — personal data sob a GDPR, mesmo quando corporativo."
    case Data => "Informação biográfica que pode identificar o titular ou revelar idade — personal data."
    case Endereco => "Localização física que identifica ou pode identificar uma pessoa — personal data, com risco aumentado (Recital 30)."
    case Org => "Associação organizacional pode identificar indiretamente o titular — personal data caso possibilite identificação."
    case Loc => "Dado de geolocalização ou referência territorial — personal data (Recital 30)."
    case Ip => "Endereço IP é personal data sob a GDPR (Recital 30) pois identifica dispositivos do titular."
    case DadoBancario => "Financial personal data — não é 'special category', mas possui alto risco e exige salvaguardas reforçadas (GDPR Art. 32)."
  }

  const GdprExplanations: map<Label, string> := map tag | tag in AllLabels :: GdprText(tag)

  /** The display class of each label. */
  function ClassText(tag: Label): string {
    match tag
    case Nome => "anon nome"
    case Cpf => "anon cpf"
    case Rg => "anon rg"
    case Cnpj => "anon cnpj"
    case Telefone => "anon telefone"
    case Email => "anon email"
    case Data => "anon data"
    case Endereco => "anon endereco"
    case Org => "anon org"
    case Loc => "anon loc"
    case Ip => "anon ip"
    case DadoBancario => "anon bancario"
  }

  const ClassNames: map<Label, string> := map tag | tag in AllLabels :: ClassText(tag)

  /** The explanation table for a regime: "lgpd" selects the first, any other value the second. */
  function SelectTable(lei: string): (table: map<Label, string>)
    ensures table.Keys == AllLabels
  {
    if lei == LgpdRegime then LgpdExplanations else GdprExplanations
  }

  /** `explicacoes.get(label, fallback)`. */
  function Explain(table: map<Label, string>, tag: Label): (explanation: string)
    ensures tag in table ==> explanation == table[tag]
    ensures tag !in table ==> explanation == FallbackExplanation
  {
    if tag in table then table[tag] else FallbackExplanation
  }

  /** `label_classes.get(label, "anon")`. */
  function CssClass(tag: Label): (cls: string)
    ensures |cls| >= 4 && cls[..4] == FallbackClass
  {
    if tag in ClassNames then ClassNames[tag] else FallbackClass
  }

  /** The inline element `<span class="C" title="E">L</span>`; nothing is escaped. */
  function Popup(tag: Label, explanation: string, cls: string): (popup: string)
    ensures |popup| >= |OpenClass| + |cls| + |tag.Text()| + |CloseSpan|
    ensures popup[..|OpenClass| + |cls|] == OpenClass + cls
    ensures popup[|popup| - |tag.Text()| - |CloseSpan|..] == tag.Text() + CloseSpan
    ensures var h := |OpenClass| + |cls|;
      |popup| >= h + |TitleOpen| + |explanation| &&
      popup[h..h + |TitleOpen| + |explanation|] == TitleOpen + explanation
  {
    var head := OpenClass + cls + TitleOpen + explanation + TitleClose;
    assert (head + tag.Text() + CloseSpan)[..|OpenClass| + |cls|] == OpenClass + cls;
    head + tag.Text() + CloseSpan
  }

  /** The popup of any class beginning with the fallback class: it opens
      with that prefix, carries the title, and ends with the label. */
  lemma PopupShape(tag: Label, explanation: string, cls: string)
    requires |cls| >= |FallbackClass| && cls[..|FallbackClass|] == FallbackClass
    ensures var popup := Popup(tag, explanation, cls);
      |popup| >= |OpenClass| + |FallbackClass| + |tag.Text()| + |CloseSpan| &&
      popup[..|OpenClass| + |FallbackClass|] == OpenClass + FallbackClass &&
      popup[|popup| - |tag.Text()| - |CloseSpan|..] == tag.Text() + CloseSpan &&
      var h := |OpenClass| + |cls|;
      |popup| >= h + |TitleOpen| + |explanation| &&
      popup[h..h + |TitleOpen| + |explanation|] == TitleOpen + explanation
  {
    var popup := Popup(tag, explanation, cls);
    assert popup[..|OpenClass| + |FallbackClass|] == (OpenClass + cls)[..|OpenClass| + |FallbackClass|];
  }

  /** The marker a span with label `tag` becomes, given the selected explanation table. */
  function Marker(tag: Label, explanations: map<Label, string>): (marker: string)
    ensures |marker| >= |OpenClass| + |FallbackClass| + |tag.Text()| + |CloseSpan|
    ensures marker[..|OpenClass| + |FallbackClass|] == OpenClass + FallbackClass
    ensures marker[|marker| - |tag.Text()| - |CloseSpan|..] == tag.Text() + CloseSpan
  {
    var cls, explanation := CssClass(tag), Explain(explanations, tag);
    PopupShape(tag, explanation, cls);
    Popup(tag, explanation, cls)
  }

  /** The marker's title attribute holds the explanation the table gives the label. */
  lemma MarkerCarriesExplanation(tag: Label, explanations: map<Label, string>)
    ensures var marker, h, e := Marker(tag, explanations), |OpenClass| + |CssClass(tag)|, Explain(explanations, tag);
      |marker| >= h + |TitleOpen| + |e| && marker[h..h + |TitleOpen| + |e|] == TitleOpen + e &&
      marker[h + |TitleOpen|..h + |TitleOpen| + |e|] == e
  {
    var marker, h, e := Marker(tag, explanations), |OpenClass| + |CssClass(tag)|, Explain(explanations, tag);
    PopupShape(tag, e, CssClass(tag));
    assert marker[h + |TitleOpen|..h + |TitleOpen| + |e|] == (TitleOpen + e)[|TitleOpen|..];
  }

  /** The two regimes explain every label differently. */
  lemma RegimesExplainDifferently(tag: Label)
    ensures LgpdText(tag) != GdprText(tag)
  {
    match tag
    case Nome =>
    case Cpf =>
    case Rg =>
    case Cnpj =>
    case Telefone =>
    case Email =>
    case Data =>
    case Endereco =>
    case Org =>
    case Loc =>
    case Ip =>
    case DadoBancario =>
  }

  /** The explanation shown for a label under a regime. */
  lemma ShownExplanation(lei: string, tag: Label)
    ensures lei == LgpdRegime ==> Explain(SelectTable(lei), tag) == LgpdText(tag)
    ensures lei != LgpdRegime ==> Explain(SelectTable(lei), tag) == GdprText(tag)
  {
    EveryLabelIsKnown(tag);
  }

  /** The regime only chooses the table: the explanation shown for a label
      is its LGPD text exactly when `lei` is "lgpd", its GDPR text otherwise. */
  lemma RegimeSelectsTable(lei: string, tag: Label)
    ensures Explain(SelectTable(lei), tag) == LgpdText(tag) <==> lei == LgpdRegime
    ensures Explain(SelectTable(lei), tag) == GdprText(tag) <==> lei != LgpdRegime
  {
    ShownExplanation(lei, tag);
    RegimesExplainDifferently(tag);
  }

  /** The regime reaches the rendered marker: its title text is the
      label's LGPD explanation exactly when `lei` is "lgpd", and its GDPR
      explanation otherwise. */
  lemma MarkerShowsRegime(lei: string, tag: Label)
    ensures var marker, e := Marker(tag, SelectTable(lei)), Explain(SelectTable(lei), tag);
      var h := |OpenClass| + |CssClass(tag)| + |TitleOpen|;
      |marker| >= h + |e| && marker[h..h + |e|] == e &&
      (e == LgpdText(tag) <==> lei == LgpdRegime) &&
      (e == GdprText(tag) <==> lei != LgpdRegime)
  {
    MarkerCarriesExplanation(tag, SelectTable(lei));
    RegimeSelectsTable(lei, tag);
  }

  /** The three tables cover the whole vocabulary. */
  lemma EveryLabelIsKnown(tag: Label)
    ensures tag in AllLabels
  {
    match tag
    case Nome =>
    case Cpf =>
    case Rg =>
    case Cnpj =>
    case Telefone =>
    case Email =>
    case Data =>
    case Endereco =>
    case Org =>
    case Loc =>
    case Ip =>
    case DadoBancario =>
  }

  /** The fallbacks only serve labels missing from a table: every label
      finds its own explanation under both regimes and its own class. */
  lemma KnownLabelsNeverFallBack(lei: string, tag: Label)
    ensures tag in SelectTable(lei) && Explain(SelectTable(lei), tag) == SelectTable(lei)[tag]
    ensures tag in ClassNames && CssClass(tag) == ClassNames[tag] == ClassText(tag)
  {
    EveryLabelIsKnown(tag);
  }
}
