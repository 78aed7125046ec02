/** The queue bookkeeping of app.py: the upload check on payment
    screenshots, token assignment on registration, the per-doctor token
    reset, and the status updates of appointments and emergency alerts. The
    database tables become sequences of records held by one object; each
    record's id is its position plus one, as the table's autoincrement key
    hands them out. */
module Queue {
  import opened Text
  import opened Wrappers

  // ---------------------------------------------------------------------
  // allowed_file

  const AllowedExtensions: set<string> := {"png", "jpg", "jpeg", "gif", "pdf"}

  /** The position of the last '.' in f. */
  function LastDot(f: string): (i: nat)
    requires '.' in f
    ensures i < |f| && f[i] == '.' && '.' !in f[i + 1..]
  {
    if f[|f| - 1] == '.' then |f| - 1
    else
      assert '.' in f[..|f| - 1] by {
        var j :| 0 <= j < |f| && f[j] == '.';
        assert f[..|f| - 1][j] == '.';
      }
      var i := LastDot(f[..|f| - 1]);
      assert f[i + 1..] == f[..|f| - 1][i + 1..] + [f[|f| - 1]];
      i
  }

  /** `allowed_file`: the name holds a '.', and the text after the last
      '.', lower-cased, is one of the allowed extensions. */
  function AllowedFile(f: string): (ok: bool)
    ensures ok ==> '.' in f && f[|f| - 1] != '.'
  {
    '.' in f && Lower(f[LastDot(f) + 1..]) in AllowedExtensions
  }

  /** A name is accepted exactly when it is some stem, a '.', and an
      extension without '.' whose lower-cased form is allowed. */
  lemma AllowedFileSplit(stem: string, ext: string)
    requires '.' !in ext
    ensures AllowedFile(stem + "." + ext) <==> Lower(ext) in AllowedExtensions
  {
    var f := stem + "." + ext;
    assert f[|stem|] == '.';
    var i := LastDot(f);
    assert f[i + 1..] == ext;
  }

  /** A name without '.' is never accepted. */
  lemma NoDotRejected(f: string)
    requires '.' !in f
    ensures !AllowedFile(f)
  {
  }

  /** "x.PNG" is accepted: the extension's case is ignored. */
  lemma UpperCaseExtensionAccepted(f: string)
    requires f == "x.PNG"
    ensures AllowedFile(f)
  {
    var png := "PNG";
    assert f == "x" + "." + png;
    assert Lower(png) in AllowedExtensions by {
      assert Lower(png) == "png";
    }
    AllowedFileSplit("x", png);
  }

  /** "x.png.exe" is refused: only the last extension counts. */
  lemma LastExtensionDecides(f: string)
    requires f == "x.png.exe"
    ensures !AllowedFile(f)
  {
    var exe := "exe";
    assert f == "x.png" + "." + exe;
    assert Lower(exe) !in AllowedExtensions by {
      assert Lower(exe) == "exe";
    }
    AllowedFileSplit("x.png", exe);
  }

  /** "png" is refused: a bare extension has no '.'. */
  lemma BareExtensionRejected(f: string)
    requires f == "png"
    ensures !AllowedFile(f)
  {
    assert forall k | 0 <= k < |f| :: f[k] != '.';
    NoDotRejected(f);
  }

  // ---------------------------------------------------------------------
  // records

  datatype AppointmentStatus = Waiting | Completed

  datatype Appointment = Appointment(
    id: nat,
    patientId: nat,
    doctorId: nat,
    token: int,
    symptoms: string,
    status: AppointmentStatus,
    screenshot: Option<string>)

  /** The status column of an emergency alert: 'active', 'accepted' and
      'completed'. The last is called Handled here because Completed
      already names the appointment status in this module. */
  datatype AlertStatus = Active | Accepted | Handled

  datatype EmergencyAlert = EmergencyAlert(
    id: nat,
    patientName: string,
    patientPhone: string,
    symptoms: string,
    status: AlertStatus)

  datatype Patient = Patient(id: nat, name: string, phone: string)

  /** What the registration form carried as its payment screenshot: no
      file part at all, or a file part with the client's file name. */
  datatype Upload = NoFilePart | FilePart(filename: string)

  datatype RegisterOutcome =
    | ScreenshotRequired
    | NoFileSelected
    | InvalidFileType
    | Registered(token: int)

  predicate WaitingFor(a: Appointment, doctor: nat) {
    a.doctorId == doctor && a.status == Waiting
  }

  /** `Appointment.query.filter_by(doctor_id=doctor, status='waiting').count()` */
  function WaitingCount(apps: seq<Appointment>, doctor: nat): (n: nat)
    ensures n <= |apps|
  {
    if apps == [] then 0
    else WaitingCount(apps[..|apps| - 1], doctor) + (if WaitingFor(apps[|apps| - 1], doctor) then 1 else 0)
  }

  /** Ids are positions plus one. */
  predicate IdsInOrder(apps: seq<Appointment>) {
    forall k | 0 <= k < |apps| :: apps[k].id == k + 1
  }

  // ---------------------------------------------------------------------
  // state changes as functions of the records

  /** The records after `register` adds an appointment: token is the
      doctor's waiting count plus one. */
  function WithRegistration(apps: seq<Appointment>, patientId: nat, doctor: nat, symptoms: string, screenshot: string): (r: seq<Appointment>)
    ensures |r| == |apps| + 1 && r[..|apps|] == apps
    ensures r[|apps|].token == WaitingCount(apps, doctor) + 1
    ensures WaitingCount(r, doctor) == WaitingCount(apps, doctor) + 1
  {
    var r := apps + [Appointment(|apps| + 1, patientId, doctor, WaitingCount(apps, doctor) + 1, symptoms, Waiting, Some(screenshot))];
    assert r[..|r| - 1] == apps;
    r
  }

  /** The records after `complete_appointment(id)`. */
  function CompletedApp(apps: seq<Appointment>, id: nat): (r: seq<Appointment>)
    ensures |r| == |apps|
    ensures forall k | 0 <= k < |apps| && apps[k].id == id ::
      r[k].status == Completed && r[k] == apps[k].(status := r[k].status)
    ensures forall k | 0 <= k < |apps| && apps[k].id != id :: r[k] == apps[k]
  {
    seq(|apps|, k requires 0 <= k < |apps| =>
      if apps[k].id == id then apps[k].(status := Completed) else apps[k])
  }

  /** The token `reset_tokens` gives the waiting appointment at position k:
      one more than the number of the same doctor's waiting appointments
      before it. */
  function ResetToken(apps: seq<Appointment>, k: nat): (t: int)
    requires k < |apps|
    ensures 1 <= t
    ensures apps[k].status == Waiting ==> t <= WaitingCount(apps, apps[k].doctorId)
  {
    WaitingCountStep(apps, k, apps[k].doctorId);
    WaitingCountMonotone(apps, k + 1, |apps|, apps[k].doctorId);
    assert apps[..|apps|] == apps;
    WaitingCount(apps[..k], apps[k].doctorId) + 1
  }

  /** The records after `reset_tokens` has renumbered the waiting
      appointments of every doctor in `doctors`. */
  function Renumbered(apps: seq<Appointment>, doctors: seq<nat>): (r: seq<Appointment>)
    ensures |r| == |apps|
    ensures forall k | 0 <= k < |apps| :: r[k] == apps[k].(token := r[k].token)
    ensures forall k | 0 <= k < |apps| && apps[k].status != Waiting :: r[k] == apps[k]
  {
    seq(|apps|, k requires 0 <= k < |apps| =>
      if apps[k].status == Waiting && apps[k].doctorId in doctors
      then apps[k].(token := ResetToken(apps, k)) else apps[k])
  }

  /** Renumbering for one more doctor changes that doctor's waiting
      appointments only. */
  lemma RenumberedStep(apps: seq<Appointment>, doctors: seq<nat>, doctor: nat)
    ensures forall k | 0 <= k < |apps| ::
      Renumbered(apps, doctors + [doctor])[k] ==
        if WaitingFor(apps[k], doctor) then apps[k].(token := ResetToken(apps, k))
        else Renumbered(apps, doctors)[k]
  {
  }

  /** The alerts after `handle_emergency(id, action)`. */
  function HandledAlerts(alerts: seq<EmergencyAlert>, id: nat, action: string): (r: seq<EmergencyAlert>)
    ensures |r| == |alerts|
    ensures forall k | 0 <= k < |alerts| :: r[k] == alerts[k].(status := r[k].status)
    ensures forall k | 0 <= k < |alerts| && alerts[k].id != id :: r[k] == alerts[k]
    ensures action != "accepted" && action != "completed" ==> r == alerts
    ensures forall k | 0 <= k < |alerts| && alerts[k].id == id ::
      (action == "accepted" ==> r[k].status == Accepted)
      && (action == "completed" ==> r[k].status == Handled)
  {
    seq(|alerts|, k requires 0 <= k < |alerts| =>
      if alerts[k].id != id then alerts[k]
      else if action == "accepted" then alerts[k].(status := Accepted)
      else if action == "completed" then alerts[k].(status := Handled)
      else alerts[k])
  }

  // ---------------------------------------------------------------------
  // token properties

  /** Within one doctor's waiting appointments, later ids hold larger
      tokens; in particular no two share a token. */
  predicate TokensIncreasing(apps: seq<Appointment>, doctor: nat) {
    forall j, k | 0 <= j < k < |apps| && WaitingFor(apps[j], doctor) && WaitingFor(apps[k], doctor) ::
      apps[j].token < apps[k].token
  }

  /** Every waiting token of the doctor lies in 1..(number waiting). */
  predicate TokensBounded(apps: seq<Appointment>, doctor: nat) {
    forall k | 0 <= k < |apps| && WaitingFor(apps[k], doctor) ::
      1 <= apps[k].token <= WaitingCount(apps, doctor)
  }

  /** The tokens of the doctor's waiting appointments, in id order. */
  function WaitingTokens(apps: seq<Appointment>, doctor: nat): (ts: seq<int>)
    ensures |ts| == WaitingCount(apps, doctor)
  {
    if apps == [] then []
    else
      var last := apps[|apps| - 1];
      WaitingTokens(apps[..|apps| - 1], doctor) + (if WaitingFor(last, doctor) then [last.token] else [])
  }

  /** The numbers 1, 2, ..., n. */
  function OneTo(n: nat): (s: seq<int>)
    ensures |s| == n && forall i | 0 <= i < n :: s[i] == i + 1
  {
    seq(n, i requires 0 <= i < n => i + 1)
  }

  lemma {:induction false} WaitingCountStep(apps: seq<Appointment>, n: nat, doctor: nat)
    requires n < |apps|
    ensures WaitingCount(apps[..n + 1], doctor) ==
      WaitingCount(apps[..n], doctor) + (if WaitingFor(apps[n], doctor) then 1 else 0)
  {
    assert apps[..n + 1][..n] == apps[..n];
  }

  /** Counting over a longer prefix never gives less. */
  lemma {:induction false} WaitingCountMonotone(apps: seq<Appointment>, j: nat, k: nat, doctor: nat)
    requires j <= k <= |apps|
    ensures WaitingCount(apps[..j], doctor) <= WaitingCount(apps[..k], doctor)
    decreases k - j
  {
    if j < k {
      WaitingCountStep(apps, j, doctor);
      WaitingCountMonotone(apps, j + 1, k, doctor);
    }
  }

  /** Tables that differ in tokens only have the same waiting counts. */
  lemma {:induction false} WaitingCountIgnoresTokens(a: seq<Appointment>, b: seq<Appointment>, doctor: nat)
    requires |a| == |b|
    requires forall k | 0 <= k < |a| :: a[k] == b[k].(token := a[k].token)
    ensures WaitingCount(a, doctor) == WaitingCount(b, doctor)
  {
    if a != [] {
      WaitingCountIgnoresTokens(a[..|a| - 1], b[..|b| - 1], doctor);
    }
  }

  lemma WaitingTokensStep(apps: seq<Appointment>, n: nat, doctor: nat)
    requires 0 < n <= |apps|
    ensures WaitingTokens(apps[..n], doctor) ==
      WaitingTokens(apps[..n - 1], doctor) + (if WaitingFor(apps[n - 1], doctor) then [apps[n - 1].token] else [])
  {
    assert apps[..n][..n - 1] == apps[..n - 1];
  }

  /** A renumbered record waits for the doctor exactly when the original
      does, and then carries its reset token. */
  lemma RenumberedAt(apps: seq<Appointment>, doctors: seq<nat>, doctor: nat, k: nat)
    requires doctor in doctors && k < |apps|
    ensures WaitingFor(Renumbered(apps, doctors)[k], doctor) == WaitingFor(apps[k], doctor)
    ensures WaitingFor(apps[k], doctor) ==>
      Renumbered(apps, doctors)[k].token == WaitingCount(apps[..k], doctor) + 1
  {
  }

  /** Over every prefix, the renumbered waiting tokens are 1..(number
      waiting in that prefix). */
  lemma {:induction false} RenumberedPrefixTokens(apps: seq<Appointment>, doctors: seq<nat>, doctor: nat, n: nat)
    requires doctor in doctors && n <= |apps|
    ensures WaitingTokens(Renumbered(apps, doctors)[..n], doctor) == OneTo(WaitingCount(apps[..n], doctor))
  {
    if n > 0 {
      RenumberedPrefixTokens(apps, doctors, doctor, n - 1);
      RenumberedAt(apps, doctors, doctor, n - 1);
      PrefixTokensStep(Renumbered(apps, doctors), apps, doctor, n);
    }
  }

  /** One more record extends the prefix's tokens 1..m by m + 1 exactly
      when it waits for the doctor with that token. */
  lemma PrefixTokensStep(r: seq<Appointment>, apps: seq<Appointment>, doctor: nat, n: nat)
    requires 0 < n <= |r| == |apps|
    requires WaitingTokens(r[..n - 1], doctor) == OneTo(WaitingCount(apps[..n - 1], doctor))
    requires WaitingFor(r[n - 1], doctor) == WaitingFor(apps[n - 1], doctor)
    requires WaitingFor(apps[n - 1], doctor) ==> r[n - 1].token == WaitingCount(apps[..n - 1], doctor) + 1
    ensures WaitingTokens(r[..n], doctor) == OneTo(WaitingCount(apps[..n], doctor))
  {
    WaitingCountStep(apps, n - 1, doctor);
    WaitingTokensStep(r, n, doctor);
    var m := WaitingCount(apps[..n - 1], doctor);
    if WaitingFor(apps[n - 1], doctor) {
      assert OneTo(m + 1) == OneTo(m) + [m + 1];
    }
  }

  /** Right after `reset_tokens`, each listed doctor's waiting appointments
      carry exactly the tokens 1..n, in id order. */
  lemma {:induction false} ResetNumbersOneToN(apps: seq<Appointment>, doctors: seq<nat>, doctor: nat)
    requires doctor in doctors
    ensures TokensIncreasing(Renumbered(apps, doctors), doctor)
    ensures TokensBounded(Renumbered(apps, doctors), doctor)
    ensures WaitingTokens(Renumbered(apps, doctors), doctor) == OneTo(WaitingCount(apps, doctor))
  {
    var r := Renumbered(apps, doctors);
    WaitingCountIgnoresTokens(r, apps, doctor);
    forall j, k | 0 <= j < k < |r| && WaitingFor(r[j], doctor) && WaitingFor(r[k], doctor)
      ensures r[j].token < r[k].token
    {
      WaitingCountStep(apps, j, doctor);
      WaitingCountMonotone(apps, j + 1, k, doctor);
    }
    forall k | 0 <= k < |r| && WaitingFor(r[k], doctor)
      ensures 1 <= r[k].token <= WaitingCount(r, doctor)
    {
      WaitingCountStep(apps, k, doctor);
      WaitingCountMonotone(apps, k + 1, |apps|, doctor);
      assert apps[..|apps|] == apps;
    }
    RenumberedPrefixTokens(apps, doctors, doctor, |apps|);
    assert r[..|r|] == r;
  }

  /** While the doctor's waiting tokens stay within 1..(number waiting),
      registration appends a token above all of them, so the tokens stay
      increasing and bounded. */
  lemma {:induction false} RegisterKeepsTokensApart(apps: seq<Appointment>, patientId: nat, doctor: nat, symptoms: string, screenshot: string)
    requires TokensIncreasing(apps, doctor) && TokensBounded(apps, doctor)
    ensures TokensIncreasing(WithRegistration(apps, patientId, doctor, symptoms, screenshot), doctor)
    ensures TokensBounded(WithRegistration(apps, patientId, doctor, symptoms, screenshot), doctor)
  {
    var r := WithRegistration(apps, patientId, doctor, symptoms, screenshot);
    forall k | 0 <= k < |apps| ensures r[k] == apps[k] {
      assert r[k] == r[..|apps|][k];
    }
  }

  /** Completing a waiting appointment lowers its doctor's waiting count by
      one; completing anything else leaves every count as it was. */
  lemma {:induction false} CompleteLowersCount(apps: seq<Appointment>, id: nat, doctor: nat)
    requires IdsInOrder(apps)
    ensures WaitingCount(CompletedApp(apps, id), doctor) ==
      WaitingCount(apps, doctor) - (if 1 <= id <= |apps| && WaitingFor(apps[id - 1], doctor) then 1 else 0)
    decreases |apps|
  {
    if apps != [] {
      var init := apps[..|apps| - 1];
      var c := CompletedApp(apps, id);
      assert c[..|c| - 1] == CompletedApp(init, id);
      CompleteLowersCount(init, id, doctor);
    }
  }

  /** Registration alone does not keep tokens unique: two appointments
      wait for doctor 1 with tokens 1 and 2, the first is completed, and the
      next registration for doctor 1 receives token 2 again while the
      second still waits. */
  lemma TokenReuseAfterCompletion(apps: seq<Appointment>, a: Appointment, b: Appointment)
    requires a == Appointment(1, 1, 1, 1, "fever", Waiting, Some("p1.png"))
    requires b == Appointment(2, 2, 1, 2, "cough", Waiting, Some("p2.png"))
    requires apps == [a, b]
    ensures TokensIncreasing(apps, 1) && TokensBounded(apps, 1)
    ensures WithRegistration(CompletedApp(apps, 1), 3, 1, "rash", "p3.png")[2].token == 2
    ensures var w := WithRegistration(CompletedApp(apps, 1), 3, 1, "rash", "p3.png");
      WaitingFor(w[1], 1) && w[1].token == 2
    ensures !TokensIncreasing(WithRegistration(CompletedApp(apps, 1), 3, 1, "rash", "p3.png"), 1)
  {
    var c := CompletedApp(apps, 1);
    assert c == [a.(status := Completed), b];
    assert WaitingCount(c, 1) == 1 by {
      assert c[..1] == [a.(status := Completed)];
      assert c[..1][..0] == [];
    }
    assert WaitingCount(apps, 1) == 2 by {
      assert apps[..1] == [a];
      assert apps[..1][..0] == [];
    }
    var w := WithRegistration(c, 3, 1, "rash", "p3.png");
    assert w[1] == b;
    assert WaitingFor(w[1], 1) && WaitingFor(w[2], 1) && w[1].token == w[2].token;
  }

  // ---------------------------------------------------------------------
  // the clinic's tables

  class Clinic {
    var patients: seq<Patient>
    var appointments: seq<Appointment>
    var alerts: seq<EmergencyAlert>
    /** The ids of the doctors, in the order `Doctor.query.all()` lists them. */
    var doctors: seq<nat>

    predicate Valid()
      reads this
    {
      IdsInOrder(appointments)
      && (forall k | 0 <= k < |alerts| :: alerts[k].id == k + 1)
      && (forall k | 0 <= k < |patients| :: patients[k].id == k + 1)
    }

    constructor (doctors: seq<nat>)
      ensures Valid()
      ensures this.doctors == doctors
      ensures patients == [] && appointments == [] && alerts == []
    {
      this.doctors := doctors;
      patients := [];
      appointments := [];
      alerts := [];
    }

    /** `register`: refuse a form without a usable screenshot; otherwise
        add the patient and an appointment whose token is the doctor's
        waiting count plus one. `storedName` is the name the upload is
        saved under. */
    method Register(name: string, phone: string, doctor: nat, symptoms: string, upload: Upload, storedName: string)
      returns (outcome: RegisterOutcome)
      requires Valid()
      modifies this
      ensures Valid()
      ensures doctors == old(doctors) && alerts == old(alerts)
      ensures upload.NoFilePart? ==> outcome == ScreenshotRequired
      ensures upload.FilePart? && upload.filename == "" ==> outcome == NoFileSelected
      ensures upload.FilePart? && upload.filename != "" && !AllowedFile(upload.filename) ==>
        outcome == InvalidFileType
      ensures !outcome.Registered? ==>
        patients == old(patients) && appointments == old(appointments)
      ensures upload.FilePart? && upload.filename != "" && AllowedFile(upload.filename) ==>
        outcome == Registered(WaitingCount(old(appointments), doctor) + 1)
        && patients == old(patients) + [Patient(|old(patients)| + 1, name, phone)]
        && appointments == WithRegistration(old(appointments), |old(patients)| + 1, doctor, symptoms, storedName)
    {
      if upload.NoFilePart? {
        return ScreenshotRequired;
      }
      if upload.filename == "" {
        return NoFileSelected;
      }
      if !AllowedFile(upload.filename) {
        return InvalidFileType;
      }
      var patient := Patient(|patients| + 1, name, phone);
      patients := patients + [patient];
      var lastToken := WaitingCount(appointments, doctor);
      var token := lastToken + 1;
      appointments := appointments
        + [Appointment(|appointments| + 1, patient.id, doctor, token, symptoms, Waiting, Some(storedName))];
      outcome := Registered(token);
    }

    /** `reset_tokens`: for each doctor, number its waiting appointments
        1, 2, 3, ... in id order. */
    method ResetTokens()
      requires Valid()
      modifies this
      ensures Valid()
      ensures appointments == Renumbered(old(appointments), doctors)
      ensures doctors == old(doctors) && patients == old(patients) && alerts == old(alerts)
    {
      ghost var start := appointments;
      var ds := doctors;
      var d := 0;
      while d < |ds|
        invariant 0 <= d <= |ds|
        invariant appointments == Renumbered(start, ds[..d])
        invariant doctors == ds && patients == old(patients) && alerts == old(alerts)
      {
        RenumberDoctor(ds[d], start);
        RenumberedStep(start, ds[..d], ds[d]);
        assert ds[..d + 1] == ds[..d] + [ds[d]];
        d := d + 1;
      }
      assert ds[..d] == ds;
    }

    /** The inner loop of `reset_tokens`: the waiting appointments of one
        doctor, taken in id order, get the tokens 1, 2, 3, ...; `start` is
        the table before the reset began, which differs from the current
        one in tokens only. */
    method RenumberDoctor(doctor: nat, ghost start: seq<Appointment>)
      requires |appointments| == |start|
      requires forall k | 0 <= k < |start| :: appointments[k] == start[k].(token := appointments[k].token)
      modifies this
      ensures |appointments| == |start|
      ensures forall k | 0 <= k < |start| ::
        appointments[k] == if WaitingFor(start[k], doctor)
          then start[k].(token := ResetToken(start, k))
          else old(appointments)[k]
      ensures doctors == old(doctors) && patients == old(patients) && alerts == old(alerts)
    {
      var i := 0;
      var count := 0;
      while i < |appointments|
        invariant 0 <= i <= |appointments| == |start|
        invariant count == WaitingCount(start[..i], doctor)
        invariant forall k | 0 <= k < |start| ::
          appointments[k] == if k < i && WaitingFor(start[k], doctor)
            then start[k].(token := ResetToken(start, k))
            else old(appointments)[k]
        invariant doctors == old(doctors) && patients == old(patients) && alerts == old(alerts)
      {
        WaitingCountStep(start, i, doctor);
        if WaitingFor(appointments[i], doctor) {
          assert ResetToken(start, i) == count + 1;
          count := count + 1;
          appointments := appointments[i := appointments[i].(token := count)];
        }
        i := i + 1;
      }
    }

    /** `complete_appointment(id)`: mark the appointment completed; an
        unknown id changes nothing. */
    method CompleteAppointment(id: nat)
      requires Valid()
      modifies this
      ensures Valid()
      ensures appointments == CompletedApp(old(appointments), id)
      ensures doctors == old(doctors) && patients == old(patients) && alerts == old(alerts)
    {
      if 1 <= id <= |appointments| {
        appointments := appointments[id - 1 := appointments[id - 1].(status := Completed)];
      }
    }

    /** `handle_emergency(id, action)`: "accepted" and "completed" set the
        alert's status; any other action, or an unknown id, changes
        nothing. */
    method HandleEmergency(id: nat, action: string)
      requires Valid()
      modifies this
      ensures Valid()
      ensures alerts == HandledAlerts(old(alerts), id, action)
      ensures doctors == old(doctors) && patients == old(patients) && appointments == old(appointments)
    {
      if 1 <= id <= |alerts| {
        var alert := alerts[id - 1];
        if action == "accepted" {
          alerts := alerts[id - 1 := alert.(status := Accepted)];
        } else if action == "completed" {
          alerts := alerts[id - 1 := alert.(status := Handled)];
        }
      }
    }

    /** `trigger_emergency`: add an active alert. */
    method TriggerEmergency(name: string, phone: string, symptoms: string)
      requires Valid()
      modifies this
      ensures Valid()
      ensures alerts == old(alerts) + [EmergencyAlert(|old(alerts)| + 1, name, phone, symptoms, Active)]
      ensures doctors == old(doctors) && patients == old(patients) && appointments == old(appointments)
    {
      alerts := alerts + [EmergencyAlert(|alerts| + 1, name, phone, symptoms, Active)];
    }
  }
}
