/** The records the two pages work on, as the front end receives them, and the
    date formatting both pages share. */
module Records {
  import opened Wrappers

  /** A calendar day, counted in whole days from a fixed origin. Time of day
      and time zones are not represented. */
  type Day = int

  /** The equipment type an EPI may carry, with its default inspection interval. */
  datatype TypeEpi = TypeEpi(libelle: string, periodiciteControle: Option<int>)

  /** One item of personal protective equipment. */
  datatype Epi = Epi(
    id: Option<int>,
    identifiantPerso: string,
    marque: string,
    modele: string,
    dateMiseService: Option<Day>,
    dernierControle: Option<Day>,
    periodiciteControle: Option<int>,
    typeEpi: Option<TypeEpi>)

  /** The manager who performs an inspection. */
  datatype Gestionnaire = Gestionnaire(id: Option<int>, nom: string, prenom: string)

  /** A status an inspection can end in. */
  datatype StatutControle = StatutControle(id: Option<int>, libelle: string)

  /** A recorded inspection, with the related records the back end may embed. */
  datatype Controle = Controle(
    id: Option<int>,
    dateControle: Option<Day>,
    epiId: int,
    gestionnaireId: int,
    statutId: int,
    remarques: Option<string>,
    epi: Option<Epi>,
    gestionnaire: Option<Gestionnaire>,
    statut: Option<StatutControle>)

  /** The text both pages show for a missing value. */
  const Dash: string := "-"

  /** `formatDate`: an absent date shows as "-", and so does a date the
      formatter rejects. `format` stands for date-fns' `format` with the page's
      pattern and locale; it yields None where it would throw. */
  function FormatDate(date: Option<Day>, format: Day -> Option<string>): (r: string)
    ensures date.None? ==> r == Dash
    ensures r != Dash ==> date.Some? && format(date.value) == Some(r)
    ensures date.Some? && format(date.value).Some? ==> r == format(date.value).value
  {
    match date
    case None => Dash
    case Some(d) =>
      match format(d)
      case None => Dash
      case Some(text) => text
  }
}
