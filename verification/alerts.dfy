/**
 Alert intake: the sanitiser that drops automatic content-filter lines from an
 alert's text, the notification title built from the student and a preview,
 and the fan-out of one notification to every administrator and psicologo.
 Persistence and the per-user push channel are not part of this model; the
 JSON probe of the stored text and the role tables are inputs.
 */
module Alerts {
  import opened Wrappers
  import opened Text

  /** Lower-cased markers of the lines that must never be stored or shown. */
  const FilterLines: seq<string> := [
    "an\U{E1}lisis de ia",
    "mensaje bloqueado por filtro de contenido de azure"
  ]

  ghost predicate NoNewline(s: string) {
    forall t :: 0 <= t < |s| ==> s[t] != '\n'
  }

  lemma NoNewlineConcat(a: string, b: string)
    requires NoNewline(a) && NoNewline(b)
    ensures NoNewline(a + b)
  {
  }

  /** A line is dropped when its lower-cased form contains any marker. */
  predicate IsBlocked(line: string) {
    exists k :: 0 <= k < |FilterLines| && Contains(Lower(line), FilterLines[k])
  }

  /** The lines that are kept, in their original order. */
  function KeptLines(lines: seq<string>): (r: seq<string>)
    ensures |r| <= |lines|
    ensures forall j :: 0 <= j < |r| ==> !IsBlocked(r[j])
    ensures forall line :: line in r <==> line in lines && !IsBlocked(line)
  {
    if |lines| == 0 then []
    else (if IsBlocked(lines[0]) then [] else [lines[0]]) + KeptLines(lines[1..])
  }

  /** Filtering works line by line: a line is kept or dropped on its own, and order is kept. */
  lemma {:induction false} KeptLinesAppend(a: seq<string>, b: seq<string>)
    ensures KeptLines(a + b) == KeptLines(a) + KeptLines(b)
    decreases |a|
  {
    if |a| > 0 {
      assert (a + b)[0] == a[0];
      assert (a + b)[1..] == a[1..] + b;
      KeptLinesAppend(a[1..], b);
    } else {
      assert a + b == b;
    }
  }

  /** A single line is kept exactly when it is not blocked. */
  lemma KeptLinesSingle(line: string)
    ensures KeptLines([line]) == if IsBlocked(line) then [] else [line]
  {
    assert [line][1..] == [];
  }

  /** Filtering keeps every line exactly when none is blocked. */
  lemma {:induction false} KeptLinesAll(lines: seq<string>)
    requires forall j :: 0 <= j < |lines| ==> !IsBlocked(lines[j])
    ensures KeptLines(lines) == lines
    decreases |lines|
  {
    if |lines| > 0 {
      KeptLinesAll(lines[1..]);
      assert [lines[0]] + lines[1..] == lines;
    }
  }

  /**
   `_sanitize_alert_text`: an empty text is returned as it is; otherwise the
   kept lines are joined with "\n" and the result is stripped.
   */
  function Sanitize(raw: string): string {
    if raw == "" then raw else Strip(JoinLines(KeptLines(SplitLines(raw))))
  }

  lemma FilterKeysShape()
    ensures forall k :: 0 <= k < |FilterLines| ==>
              |FilterLines[k]| > 0 && forall t :: 0 <= t < |FilterLines[k]| ==> FilterLines[k][t] != '\n'
  {
    assert NoNewline(FilterLines[0]);
    // The long marker is checked in two halves: the solver does not show the
    // whole 50-character literal newline-free in one step.
    assert FilterLines[1] == "mensaje bloqueado por " + "filtro de contenido de azure";
    assert NoNewline("mensaje bloqueado por ") && NoNewline("filtro de contenido de azure");
    NoNewlineConcat("mensaje bloqueado por ", "filtro de contenido de azure");
  }

  /** No marker survives: the sanitised text, lower-cased, contains none of them. */
  lemma SanitizeRemovesMarkers(raw: string, k: nat)
    requires k < |FilterLines|
    ensures !Contains(Lower(Sanitize(raw)), FilterLines[k])
  {
    var key := FilterLines[k];
    FilterKeysShape();
    ContainsIsOccurs(Lower(Sanitize(raw)), key);
    if raw != "" && Occurs(key, Lower(Sanitize(raw))) {
      var kept := KeptLines(SplitLines(raw));
      var joined := JoinLines(kept);
      var b := StripBounds(joined);
      LowerSlice(joined, b.0, b.1);
      OccursInSlice(key, Lower(joined), b.0, b.1);
      OccursInJoinedLines(key, kept);
      var j :| 0 <= j < |kept| && Occurs(key, Lower(kept[j]));
      ContainsIsOccurs(Lower(kept[j]), key);
      assert IsBlocked(kept[j]);
      assert false;
    }
  }

  /** Clean text passes unchanged: "\n" breaks only, nothing blocked, nothing to strip. */
  lemma SanitizeKeepsCleanText(raw: string)
    requires OnlyNewlineBreaks(raw) && Trimmed(raw)
    requires forall j :: 0 <= j < |SplitLines(raw)| ==> !IsBlocked(SplitLines(raw)[j])
    ensures Sanitize(raw) == raw
  {
    if raw != "" {
      KeptLinesAll(SplitLines(raw));
      assert raw[|raw| - 1] != '\n';
      JoinSplitLines(raw);
      StripTrims(raw);
    }
  }

  /** The sanitised text has "\n" as its only break and nothing to strip. */
  lemma SanitizedShape(raw: string)
    ensures OnlyNewlineBreaks(Sanitize(raw)) && Trimmed(Sanitize(raw))
  {
    if raw != "" {
      var joined := JoinLines(KeptLines(SplitLines(raw)));
      JoinedLinesBreaks(KeptLines(SplitLines(raw)));
      var b := StripBounds(joined);
      OnlyNewlineBreaksSlice(joined, b.0, b.1);
      StripTrims(joined);
    }
  }

  /** No line of the sanitised text is blocked. */
  lemma SanitizedLineClean(raw: string, j: nat)
    requires j < |SplitLines(Sanitize(raw))|
    ensures !IsBlocked(SplitLines(Sanitize(raw))[j])
  {
    var s := Sanitize(raw);
    var line := SplitLines(s)[j];
    forall k | 0 <= k < |FilterLines| ensures !Contains(Lower(line), FilterLines[k]) {
      SanitizeRemovesMarkers(raw, k);
      ContainsIsOccurs(Lower(s), FilterLines[k]);
      ContainsIsOccurs(Lower(line), FilterLines[k]);
      if Occurs(FilterLines[k], Lower(line)) {
        OccursInSplitLine(FilterLines[k], s, j);
      }
    }
  }

  /** Sanitising twice is sanitising once, so re-sanitising a stored text is harmless. */
  lemma SanitizeIdempotent(raw: string)
    ensures Sanitize(Sanitize(raw)) == Sanitize(raw)
  {
    var s := Sanitize(raw);
    SanitizedShape(raw);
    forall j | 0 <= j < |SplitLines(s)| ensures !IsBlocked(SplitLines(s)[j]) {
      SanitizedLineClean(raw, j);
    }
    SanitizeKeepsCleanText(s);
  }

  // ---------------------------------------------------------------------------
  // Notification title
  // ---------------------------------------------------------------------------

  const PreviewLimit: nat := 80
  /** Width of the notification title column. */
  const TitleLimit: nat := 255

  /** The first 80 characters, followed by "..." exactly when something was cut. */
  function Preview(text: string): (r: string)
    ensures |text| <= PreviewLimit ==> r == text
    ensures |text| > PreviewLimit ==> r == text[..PreviewLimit] + "..."
  {
    Take(text, PreviewLimit) + (if |text| > PreviewLimit then "..." else "")
  }

  /** `f"{nombre} {apellido}".strip()`. */
  function StudentName(nombre: string, apellido: string): string {
    Strip(nombre + " " + apellido)
  }

  /** The title before the column cut. */
  function FullTitle(severidad: string, name: string, email: string, preview: string): string {
    "ALERTA " + severidad + ": " + name + " (" + email + ") - " + Preview(preview)
  }

  /** The stored title: the full title cut to the first 255 characters. */
  function TituloBase(severidad: string, name: string, email: string, preview: string): (r: string)
    ensures |r| <= TitleLimit
    ensures var full := FullTitle(severidad, name, email, preview);
            |r| <= |full| && r == full[..|r|] && (|full| <= TitleLimit ==> r == full) && (|full| > TitleLimit ==> |r| == TitleLimit)
  {
    Take(FullTitle(severidad, name, email, preview), TitleLimit)
  }

  /** A title that fits ends in "..." exactly when the preview was cut. */
  lemma TitleMarksCutPreview(severidad: string, name: string, email: string, preview: string)
    requires |FullTitle(severidad, name, email, preview)| <= TitleLimit
    ensures var t := TituloBase(severidad, name, email, preview);
            |preview| > PreviewLimit ==> |t| >= 3 && t[|t| - 3..] == "..."
    ensures |preview| <= PreviewLimit ==>
              TituloBase(severidad, name, email, preview)
              == "ALERTA " + severidad + ": " + name + " (" + email + ") - " + preview
  {
  }

  /** What parsing the stored text as JSON gave. */
  datatype JsonProbe =
    | NotJson                                  // `json.loads` raised
    | DictWithOriginal(mensajeOriginal: string) // a dict with a string `mensaje_original`
    | OtherJson                                // any other JSON value

  /**
   The text previewed in the title: the sanitised `mensaje_original` when the
   stored text is a JSON object carrying one, the stored text re-sanitised when
   it is not JSON, and the stored text itself otherwise.
   */
  function PreviewSource(stored: string, probe: JsonProbe): string {
    match probe
    case DictWithOriginal(original) => Sanitize(original)
    case NotJson => Sanitize(stored)
    case OtherJson => stored
  }

  /** Whatever the probe says, the previewed text carries no marker once the stored text is sanitised. */
  lemma PreviewSourceClean(raw: string, probe: JsonProbe, k: nat)
    requires k < |FilterLines|
    ensures !Contains(Lower(PreviewSource(Sanitize(raw), probe)), FilterLines[k])
    ensures probe.NotJson? ==> PreviewSource(Sanitize(raw), probe) == Sanitize(raw)
  {
    SanitizeIdempotent(raw);
    match probe
    case DictWithOriginal(original) => SanitizeRemovesMarkers(original, k);
    case _ => SanitizeRemovesMarkers(raw, k);
  }

  // ---------------------------------------------------------------------------
  // Recipients
  // ---------------------------------------------------------------------------

  /** `if role_id:` on the result of `roles.get(name)`: missing and 0 are both false. */
  predicate RoleIdSet(roleId: Option<int>) {
    roleId.Some? && roleId.value != 0
  }

  function RoleId(roles: map<string, int>, name: string): (r: Option<int>)
    ensures r.Some? <==> name in roles
    ensures r.Some? ==> r.value == roles[name]
  {
    if name in roles then Some(roles[name]) else None
  }

  /** The users with a given role id, in the order the query returned them. */
  function UsersWithRole(users: seq<(int, int)>, roleId: int): (r: seq<int>)
    ensures forall u :: u in r <==> exists i :: 0 <= i < |users| && users[i] == (u, roleId)
  {
    if |users| == 0 then []
    else (if users[0].1 == roleId then [users[0].0] else []) + UsersWithRole(users[1..], roleId)
  }

  /** `target_users`: the administrators, then the psicologos, of each role whose id is set. */
  function TargetUsers(roles: map<string, int>, users: seq<(int, int)>): (r: seq<int>)
    ensures forall u :: u in r <==>
              exists i :: 0 <= i < |users| && users[i].0 == u
                          && ((RoleIdSet(RoleId(roles, "ADMINISTRADOR")) && users[i].1 == roles["ADMINISTRADOR"])
                              || (RoleIdSet(RoleId(roles, "PSICOLOGO")) && users[i].1 == roles["PSICOLOGO"]))
  {
    var admin := RoleId(roles, "ADMINISTRADOR");
    var psicologo := RoleId(roles, "PSICOLOGO");
    (if RoleIdSet(admin) then UsersWithRole(users, admin.value) else [])
    + (if RoleIdSet(psicologo) then UsersWithRole(users, psicologo.value) else [])
  }

  /** A stored `Notificaciones` row. */
  datatype Notification = Notification(idEstudiante: int, recipient: int, titulo: string)

  /** A message on a user's push channel. */
  datatype Push = Push(userId: int, kind: string)

  /** Each notification is followed by its two pushes, in order. */
  ghost predicate PushesFollow(notes: seq<Notification>, pushes: seq<Push>) {
    && |pushes| == 2 * |notes|
    && forall i :: 0 <= i < |notes| ==>
         pushes[2 * i] == Push(notes[i].recipient, "notification_new")
         && pushes[2 * i + 1] == Push(notes[i].recipient, "alerta_nueva")
  }

  lemma PushesFollowAppend(notes: seq<Notification>, pushes: seq<Push>, n: Notification)
    requires PushesFollow(notes, pushes)
    ensures PushesFollow(notes + [n],
                         pushes + [Push(n.recipient, "notification_new"), Push(n.recipient, "alerta_nueva")])
  {
    var notes', pushes' := notes + [n],
      pushes + [Push(n.recipient, "notification_new"), Push(n.recipient, "alerta_nueva")];
    forall i | 0 <= i < |notes'|
      ensures pushes'[2 * i] == Push(notes'[i].recipient, "notification_new")
              && pushes'[2 * i + 1] == Push(notes'[i].recipient, "alerta_nueva")
    {
      if i < |notes| {
        assert notes'[i] == notes[i] && pushes'[2 * i] == pushes[2 * i] && pushes'[2 * i + 1] == pushes[2 * i + 1];
      }
    }
  }

  /**
   One notification per distinct target (`set(target_users)`), each followed
   by a `notification_new` and an `alerta_nueva` push to that user.
   */
  method Notify(idEstudiante: int, titulo: string, targets: seq<int>)
    returns (notes: seq<Notification>, pushes: seq<Push>)
    ensures forall i, j :: 0 <= i < j < |notes| ==> notes[i].recipient != notes[j].recipient
    ensures forall u :: u in targets <==> exists i :: 0 <= i < |notes| && notes[i].recipient == u
    ensures forall i :: 0 <= i < |notes| ==> notes[i].idEstudiante == idEstudiante && notes[i].titulo == titulo
    ensures |pushes| == 2 * |notes|
    ensures forall i :: 0 <= i < |notes| ==>
              pushes[2 * i] == Push(notes[i].recipient, "notification_new")
              && pushes[2 * i + 1] == Push(notes[i].recipient, "alerta_nueva")
  {
    var pending := set u | u in targets;
    notes, pushes := [], [];
    while pending != {}
      invariant pending <= set u | u in targets
      invariant forall i, j :: 0 <= i < j < |notes| ==> notes[i].recipient != notes[j].recipient
      invariant forall i :: 0 <= i < |notes| ==> notes[i].recipient !in pending && notes[i].recipient in targets
      invariant forall u :: u in targets ==> u in pending || exists i :: 0 <= i < |notes| && notes[i].recipient == u
      invariant forall i :: 0 <= i < |notes| ==> notes[i].idEstudiante == idEstudiante && notes[i].titulo == titulo
      invariant PushesFollow(notes, pushes)
      decreases pending
    {
      if forall w :: w !in pending {
        assert false;
      }
      var uid :| uid in pending;
      var note := Notification(idEstudiante, uid, titulo);
      PushesFollowAppend(notes, pushes, note);
      ghost var before := notes;
      notes := notes + [note];
      assert forall i :: 0 <= i < |before| ==> notes[i] == before[i];
      assert notes[|notes| - 1].recipient == uid;
      pushes := pushes + [Push(uid, "notification_new"), Push(uid, "alerta_nueva")];
      pending := pending - {uid};
    }
  }

  // ---------------------------------------------------------------------------
  // The whole intake
  // ---------------------------------------------------------------------------

  /** The student fields the intake reads. */
  datatype Student = Student(nombre: string, apellido: string, email: string)

  /** A stored alert: its student, sanitised text and severity. */
  datatype Alert = Alert(idEstudiante: int, texto: string, severidad: string)

  datatype Intake = Intake(alert: Alert, titulo: string, notes: seq<Notification>, pushes: seq<Push>)

  /**
   `crear_alerta`: 404 when the student is unknown; otherwise the alert is
   stored with its sanitised text and every administrator and psicologo is
   notified once under the same title.
   */
  method CreateAlert(students: map<int, Student>, idEstudiante: int, texto: string, severidad: string,
                     probe: JsonProbe, roles: map<string, int>, users: seq<(int, int)>)
    returns (r: Result<Intake, string>)
    ensures r.Failure? <==> idEstudiante !in students
    ensures r.Failure? ==> r.error == "Estudiante no encontrado"
    ensures r.Success? ==>
              var st := students[idEstudiante];
              var stored := Sanitize(texto);
              && r.value.alert == Alert(idEstudiante, stored, severidad)
              && r.value.titulo == TituloBase(severidad, StudentName(st.nombre, st.apellido), st.email,
                                              PreviewSource(stored, probe))
              && (forall u :: u in TargetUsers(roles, users) <==>
                    exists i :: 0 <= i < |r.value.notes| && r.value.notes[i].recipient == u)
              && (forall i, j :: 0 <= i < j < |r.value.notes| ==>
                    r.value.notes[i].recipient != r.value.notes[j].recipient)
              && (forall i :: 0 <= i < |r.value.notes| ==>
                    r.value.notes[i].titulo == r.value.titulo && r.value.notes[i].idEstudiante == idEstudiante)
              && |r.value.pushes| == 2 * |r.value.notes|
              && PushesFollow(r.value.notes, r.value.pushes)
  {
    if idEstudiante !in students {
      return Failure("Estudiante no encontrado");
    }
    var st := students[idEstudiante];
    var stored := Sanitize(texto);
    var alert := Alert(idEstudiante, stored, severidad);
    var name := StudentName(st.nombre, st.apellido);
    var titulo := TituloBase(severidad, name, st.email, PreviewSource(stored, probe));
    var notes, pushes := Notify(idEstudiante, titulo, TargetUsers(roles, users));
    return Success(Intake(alert, titulo, notes, pushes));
  }
}
