/** The inspection list page: the labels its table shows for the related
    records, and the add/edit dialog with its draft inspection and its
    notification. */
module ControleList {
  import opened Wrappers
  import opened Records

  // ---------------------------------------------------------------------------
  // Lookups

  /** `Array.prototype.find`: the position of the first element satisfying
      `p`, or None when there is none. */
  function Find<T>(xs: seq<T>, p: T -> bool): (r: Option<nat>)
    ensures r.Some? ==> r.value < |xs| && p(xs[r.value])
    ensures r.Some? ==> forall j :: 0 <= j < r.value ==> !p(xs[j])
    ensures r.None? <==> forall j :: 0 <= j < |xs| ==> !p(xs[j])
    decreases |xs|
  {
    if xs == [] then None
    else if p(xs[0]) then Some(0)
    else
      match Find(xs[1..], p)
      case None => None
      case Some(i) => Some(i + 1)
  }

  /** `i` is the first position whose record has identifier `id`. */
  ghost predicate FirstWithId(ids: seq<Option<int>>, id: int, i: int)
  {
    0 <= i < |ids| && ids[i] == Some(id) && forall j :: 0 <= j < i ==> ids[j] != Some(id)
  }

  /** The identifiers of a list of records, in order. */
  function Ids<T>(records: seq<T>, idOf: T -> Option<int>): (ids: seq<Option<int>>)
    ensures |ids| == |records|
    ensures forall i :: 0 <= i < |records| ==> ids[i] == idOf(records[i])
  {
    seq(|records|, i requires 0 <= i < |records| => idOf(records[i]))
  }

  /** The text the page shows for an EPI it looked up. */
  function EpiText(e: Epi): string
  {
    e.identifiantPerso + " - " + e.marque + " " + e.modele
  }

  /** The text the page shows for a manager. */
  function GestionnaireText(g: Gestionnaire): string
  {
    g.nom + " " + g.prenom
  }

  /** `getEpiLabel`: the first EPI with that identifier, as "identifiant -
      marque modele", or "-" when the list has none. */
  function EpiLabel(epis: seq<Epi>, epiId: int): (r: string)
    ensures r == Dash <==> forall i :: 0 <= i < |epis| ==> epis[i].id != Some(epiId)
    ensures forall i :: FirstWithId(Ids(epis, (e: Epi) => e.id), epiId, i) ==> r == EpiText(epis[i])
  {
    match Find(epis, (e: Epi) => e.id == Some(epiId))
    case None => Dash
    case Some(i) =>
      assert |EpiText(epis[i])| >= 3;
      EpiText(epis[i])
  }

  /** `getGestionnaireLabel`: the first manager with that identifier, as
      "nom prenom", or "-" when the list has none. */
  function GestionnaireLabel(gestionnaires: seq<Gestionnaire>, gestionnaireId: int): (r: string)
    ensures r == Dash <==> forall i :: 0 <= i < |gestionnaires| ==> gestionnaires[i].id != Some(gestionnaireId)
    ensures forall i :: FirstWithId(Ids(gestionnaires, (g: Gestionnaire) => g.id), gestionnaireId, i) ==>
              r == GestionnaireText(gestionnaires[i])
  {
    match Find(gestionnaires, (g: Gestionnaire) => g.id == Some(gestionnaireId))
    case None => Dash
    case Some(i) =>
      var text := GestionnaireText(gestionnaires[i]);
      assert text[|gestionnaires[i].nom|] == ' ';
      text
  }

  /** `getStatutLabel`: the label of the first status with that identifier,
      or "-" when the list has none. A status may itself be labelled "-", so
      here a dash does not prove the status missing. */
  function StatutLabel(statuts: seq<StatutControle>, statutId: int): (r: string)
    ensures (forall i :: 0 <= i < |statuts| ==> statuts[i].id != Some(statutId)) ==> r == Dash
    ensures forall i :: FirstWithId(Ids(statuts, (s: StatutControle) => s.id), statutId, i) ==> r == statuts[i].libelle
  {
    match Find(statuts, (s: StatutControle) => s.id == Some(statutId))
    case None => Dash
    case Some(i) => statuts[i].libelle
  }

  /** Only the first match counts: records after it with the same identifier
      never change the label. */
  lemma EpiLabelIgnoresLaterDuplicates(epis: seq<Epi>, more: seq<Epi>, epiId: int)
    requires exists i :: 0 <= i < |epis| && epis[i].id == Some(epiId)
    ensures EpiLabel(epis + more, epiId) == EpiLabel(epis, epiId)
  {
    var f := Find(epis, (e: Epi) => e.id == Some(epiId));
    var i := f.value;
    assert FirstWithId(Ids(epis, (e: Epi) => e.id), epiId, i);
    assert FirstWithId(Ids(epis + more, (e: Epi) => e.id), epiId, i) by {
      assert (epis + more)[i] == epis[i];
      forall j | 0 <= j < i ensures (epis + more)[j].id != Some(epiId) {
        assert (epis + more)[j] == epis[j];
      }
    }
  }

  // ---------------------------------------------------------------------------
  // Table cells

  /** The text of an EPI the back end embedded in an inspection: unlike the
      looked-up label it leaves out the model. */
  function EmbeddedEpiText(e: Epi): string
  {
    e.identifiantPerso + " - " + e.marque
  }

  /** The EPI column: the embedded EPI when there is one, else the lookup. */
  function EpiCell(c: Controle, epis: seq<Epi>): (r: string)
    ensures c.epi.Some? ==> r == EmbeddedEpiText(c.epi.value)
    ensures c.epi.None? ==> r == EpiLabel(epis, c.epiId)
  {
    if c.epi.Some? then EmbeddedEpiText(c.epi.value) else EpiLabel(epis, c.epiId)
  }

  /** The manager column: the embedded manager when there is one, else the lookup. */
  function GestionnaireCell(c: Controle, gestionnaires: seq<Gestionnaire>): (r: string)
    ensures c.gestionnaire.Some? ==> r == GestionnaireText(c.gestionnaire.value)
    ensures c.gestionnaire.None? ==> r == GestionnaireLabel(gestionnaires, c.gestionnaireId)
  {
    if c.gestionnaire.Some? then GestionnaireText(c.gestionnaire.value)
    else GestionnaireLabel(gestionnaires, c.gestionnaireId)
  }

  /** The status column: the embedded status when there is one, else the lookup. */
  function StatutCell(c: Controle, statuts: seq<StatutControle>): (r: string)
    ensures c.statut.Some? ==> r == c.statut.value.libelle
    ensures c.statut.None? ==> r == StatutLabel(statuts, c.statutId)
  {
    if c.statut.Some? then c.statut.value.libelle else StatutLabel(statuts, c.statutId)
  }

  /** An embedded relation makes the cell independent of the loaded lists. */
  lemma EmbeddedCellsIgnoreLists(c: Controle, epis1: seq<Epi>, epis2: seq<Epi>,
                                 gs1: seq<Gestionnaire>, gs2: seq<Gestionnaire>,
                                 ss1: seq<StatutControle>, ss2: seq<StatutControle>)
    ensures c.epi.Some? ==> EpiCell(c, epis1) == EpiCell(c, epis2)
    ensures c.gestionnaire.Some? ==> GestionnaireCell(c, gs1) == GestionnaireCell(c, gs2)
    ensures c.statut.Some? ==> StatutCell(c, ss1) == StatutCell(c, ss2)
  {
  }

  /** The embedded EPI text is a strict prefix of the looked-up label of the
      same EPI: the two columns show the same record differently. */
  lemma EmbeddedEpiTextIsShorter(c: Controle, epis: seq<Epi>, e: Epi)
    requires c.epi == Some(e) && e.id == Some(c.epiId)
    ensures EpiCell(c, epis) < EpiCell(c.(epi := None), [e])
  {
    assert EpiLabel([e], c.epiId) == EpiText(e) by {
      assert FirstWithId(Ids([e], (e': Epi) => e'.id), c.epiId, 0);
    }
    assert EpiText(e) == EmbeddedEpiText(e) + (" " + e.modele);
  }

  // ---------------------------------------------------------------------------
  // The draft inspection

  /** A value held in the draft. The form writes strings (the select boxes
      hold identifiers as text), the date picker writes dates, and a copied
      inspection brings numbers and embedded records. */
  datatype Value =
    | Undefined
    | Num(n: int)
    | Text(s: string)
    | Date(day: Day)
    | EpiValue(epi: Epi)
    | GestionnaireValue(gestionnaire: Gestionnaire)
    | StatutValue(statut: StatutControle)

  /** JavaScript truthiness of a draft value. */
  predicate IsTruthy(v: Value)
  {
    match v
    case Undefined => false
    case Num(n) => n != 0
    case Text(s) => s != ""
    case _ => true
  }

  /** The draft (`Partial<Controle>`): the form writes fields by name. */
  type Draft = map<string, Value>

  /** Reading a field of the draft; a missing key reads as undefined. */
  function Field(d: Draft, name: string): Value
  {
    if name in d then d[name] else Undefined
  }

  /** Adds `name` to `d` when the field is present. */
  function WithOptional<T>(d: Draft, name: string, v: Option<T>, wrap: T -> Value): (r: Draft)
    ensures v.None? ==> r == d
    ensures v.Some? ==> r == d[name := wrap(v.value)]
  {
    if v.Some? then d[name := wrap(v.value)] else d
  }

  /** `{ ...controle }`: the draft holding a copy of every field the
      inspection carries, and no other. */
  function CopyOf(c: Controle): (d: Draft)
    ensures Field(d, "id") == (if c.id.Some? then Num(c.id.value) else Undefined)
    ensures Field(d, "date_controle") == (if c.dateControle.Some? then Date(c.dateControle.value) else Undefined)
    ensures Field(d, "epi_id") == Num(c.epiId)
    ensures Field(d, "gestionnaire_id") == Num(c.gestionnaireId)
    ensures Field(d, "statut_id") == Num(c.statutId)
    ensures Field(d, "remarques") == (if c.remarques.Some? then Text(c.remarques.value) else Undefined)
    ensures Field(d, "epi") == (if c.epi.Some? then EpiValue(c.epi.value) else Undefined)
    ensures Field(d, "gestionnaire") == (if c.gestionnaire.Some? then GestionnaireValue(c.gestionnaire.value) else Undefined)
    ensures Field(d, "statut") == (if c.statut.Some? then StatutValue(c.statut.value) else Undefined)
    ensures d.Keys <= {"id", "date_controle", "epi_id", "gestionnaire_id", "statut_id",
                       "remarques", "epi", "gestionnaire", "statut"}
  {
    var required := map["epi_id" := Num(c.epiId), "gestionnaire_id" := Num(c.gestionnaireId),
                        "statut_id" := Num(c.statutId)];
    var d1 := WithOptional(required, "id", c.id, (n: int) => Num(n));
    var d2 := WithOptional(d1, "date_controle", c.dateControle, (day: Day) => Date(day));
    var d3 := WithOptional(d2, "remarques", c.remarques, (s: string) => Text(s));
    var d4 := WithOptional(d3, "epi", c.epi, (e: Epi) => EpiValue(e));
    var d5 := WithOptional(d4, "gestionnaire", c.gestionnaire, (g: Gestionnaire) => GestionnaireValue(g));
    WithOptional(d5, "statut", c.statut, (s: StatutControle) => StatutValue(s))
  }

  /** The call `handleSubmit` makes to the inspection service. */
  datatype Request = Create(payload: Draft) | Update(id: Value, payload: Draft)

  /** The create-or-update decision: an update only when editing AND the
      draft's identifier is truthy; otherwise a create, so an edit whose
      identifier is missing or 0 creates a new inspection. Either way the whole
      draft is sent. */
  function SubmitRequest(isEditing: bool, draft: Draft): (req: Request)
    ensures req.Update? <==> isEditing && IsTruthy(Field(draft, "id"))
    ensures req.Update? ==> req.id == draft["id"]
    ensures req.payload == draft
  {
    if isEditing && IsTruthy(Field(draft, "id")) then Update(draft["id"], draft) else Create(draft)
  }

  /** Editing an inspection that has a non-zero identifier updates it, under
      that identifier and with its own fields. */
  lemma EditOfStoredControleUpdates(c: Controle)
    requires c.id.Some? && c.id.value != 0
    ensures SubmitRequest(true, CopyOf(c)) == Update(Num(c.id.value), CopyOf(c))
  {
  }

  /** Editing an inspection without an identifier, or with identifier 0,
      creates a new one. */
  lemma EditWithoutIdCreates(c: Controle)
    requires c.id.None? || c.id == Some(0)
    ensures SubmitRequest(true, CopyOf(c)) == Create(CopyOf(c))
  {
  }

  // ---------------------------------------------------------------------------
  // The notification

  datatype Severity = Success | Error

  datatype Notification = Notification(open: bool, message: string, severity: Severity)

  const CreatedMessage: string := "Contrôle créé avec succès"
  const UpdatedMessage: string := "Contrôle mis à jour avec succès"
  const SaveErrorMessage: string := "Erreur lors de l'enregistrement du contrôle"

  // ---------------------------------------------------------------------------
  // The dialog state

  /** The page's interactive state: whether the dialog is open, whether it
      edits an existing inspection, the draft it edits, and the notification. */
  class ControleDialog {
    var openDialog: bool
    var isEditing: bool
    var currentControle: Draft
    var snackbar: Notification

    /** The state when the page mounts. */
    constructor ()
      ensures !openDialog && !isEditing && currentControle == map[]
      ensures snackbar == Notification(false, "", Success)
    {
      openDialog := false;
      isEditing := false;
      currentControle := map[];
      snackbar := Notification(false, "", Success);
    }

    /** `handleAddClick`: a fresh draft dated `now`, in creation mode, with the
        dialog open. */
    method AddClick(now: Day)
      modifies this`currentControle, this`isEditing, this`openDialog
      ensures currentControle == map["date_controle" := Date(now)]
      ensures !isEditing && openDialog
    {
      currentControle := map["date_controle" := Date(now)];
      isEditing := false;
      openDialog := true;
    }

    /** `handleEditClick`: the draft becomes a copy of `controle`, in editing
        mode, with the dialog open. */
    method EditClick(controle: Controle)
      modifies this`currentControle, this`isEditing, this`openDialog
      ensures currentControle == CopyOf(controle)
      ensures isEditing && openDialog
    {
      currentControle := CopyOf(controle);
      isEditing := true;
      openDialog := true;
    }

    /** `handleDialogClose`: only the dialog closes; the draft is kept. */
    method DialogClose()
      modifies this`openDialog
      ensures !openDialog
    {
      openDialog := false;
    }

    /** `handleInputChange`: the field named by the input takes the text typed;
        every other field is unchanged. */
    method InputChange(name: string, value: string)
      modifies this`currentControle
      ensures currentControle == old(currentControle)[name := Text(value)]
      ensures Field(currentControle, name) == Text(value)
      ensures forall k :: k != name ==> Field(currentControle, k) == Field(old(currentControle), k)
    {
      currentControle := currentControle[name := Text(value)];
    }

    /** `handleSelectChange`: the field named by the select (`name || ""`)
        takes the chosen value, which is text; every other field is unchanged. */
    method SelectChange(name: Option<string>, value: string)
      modifies this`currentControle
      ensures var key := if name.Some? then name.value else "";
              currentControle == old(currentControle)[key := Text(value)]
      ensures var key := if name.Some? then name.value else "";
              forall k :: k != key ==> Field(currentControle, k) == Field(old(currentControle), k)
    {
      var key := if name.Some? && name.value != "" then name.value else "";
      currentControle := currentControle[key := Text(value)];
    }

    /** `handleDateChange`: a date sets `date_controle`, a cleared picker
        leaves it undefined; every other field is unchanged. */
    method DateChange(date: Option<Day>)
      modifies this`currentControle
      ensures currentControle == old(currentControle)["date_controle" := if date.None? then Undefined else Date(date.value)]
      ensures Field(currentControle, "date_controle") == (if date.None? then Undefined else Date(date.value))
      ensures !IsTruthy(Field(currentControle, "date_controle")) <==> date.None?
      ensures forall k :: k != "date_controle" ==> Field(currentControle, k) == Field(old(currentControle), k)
    {
      currentControle := currentControle["date_controle" := if date == None then Undefined else Date(date.value)];
    }

    /** `handleSubmit`, with the service's answer as `succeeded`: returns the
        request made. On success a success notice names what was done and the
        dialog closes; on failure an error notice opens and the dialog stays as
        it was. The draft and the mode are never changed. */
    method Submit(succeeded: bool) returns (req: Request)
      modifies this`openDialog, this`snackbar
      ensures req == SubmitRequest(isEditing, currentControle)
      ensures succeeded ==> !openDialog
      ensures succeeded ==> snackbar == Notification(true, if req.Update? then UpdatedMessage else CreatedMessage, Success)
      ensures !succeeded ==> openDialog == old(openDialog)
      ensures !succeeded ==> snackbar == Notification(true, SaveErrorMessage, Error)
    {
      req := SubmitRequest(isEditing, currentControle);
      if succeeded {
        if req.Update? {
          snackbar := Notification(true, UpdatedMessage, Success);
        } else {
          snackbar := Notification(true, CreatedMessage, Success);
        }
        DialogClose();
      } else {
        snackbar := Notification(true, SaveErrorMessage, Error);
      }
    }

    /** The notification's close handler: it closes and keeps its message and
        severity. */
    method CloseSnackbar()
      modifies this`snackbar
      ensures snackbar == old(snackbar).(open := false)
    {
      snackbar := snackbar.(open := false);
    }
  }

  /** Outside editing mode a submission is always a creation, whatever the
      draft holds. Only EditClick turns editing on: AddClick turns it off and
      no other handler's frame includes `isEditing`. */
  lemma NotEditingAlwaysCreates(draft: Draft)
    ensures SubmitRequest(false, draft) == Create(draft)
  {
  }

  /** Example session: an edit, then a cancel, then an add with an EPI chosen;
      the save creates, and the notice says so. */
  method AddAfterEditExample(dialog: ControleDialog, c: Controle, now: Day, epiId: string)
    modifies dialog
  {
    dialog.EditClick(c);
    dialog.DialogClose();
    dialog.AddClick(now);
    dialog.SelectChange(Some("epi_id"), epiId);
    var req := dialog.Submit(true);
    assert req == Create(map["date_controle" := Date(now), "epi_id" := Text(epiId)]);
    assert !dialog.openDialog && dialog.snackbar.message == CreatedMessage;
  }
}
