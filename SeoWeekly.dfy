/** The weekly local-SEO action-plan mail (scripts/send_seo_weekly_email.py):
    the week content table, the week calculator, the `.env` file loader, the
    body formatter, the mail configuration and the entry point's wiring.
    Dates are proleptic Gregorian day numbers (day 1 is 0001-01-01, as
    Python's `date.toordinal`); the process environment is a map. */
module SeoWeekly {
  import opened Wrappers
  import opened Text
  import opened Seqs

  // =====================================================================
  // Week content table

  /** One week's plan: a title and its ordered actions. */
  datatype Plan = Plan(title: string, actions: seq<string>)

  const Week1Actions: seq<string> := [
    "Verifier sitemap, indexation, pages exclues, canonical, hreflang dans GSC.",
    "Verifier et completer Google Business Profile (categories, services, horaires, photos).",
    "Aligner NAP partout (nom, adresse, telephone).",
    "Mettre en place un tableau de bord KPI."]
  const Week2Actions: seq<string> := [
    "Corriger erreurs d'indexation (404, soft 404, doublons).",
    "Renforcer maillage interne Home/Location/Blog vers pages locales.",
    "Ajouter schema LocalBusiness + Service sur pages locales.",
    "Verifier robots.txt et sitemap.xml."]
  const Week3Actions: seq<string> := [
    "Publier page: location-velo-electrique-marseillan.",
    "Publier page: reparation-velo-marseillan.",
    "Ajouter FAQ locale (3 a 5 Q/R) sur pages ville.",
    "Ajouter preuves locales (photos, itineraires, points de repere)."]
  const Week4Actions: seq<string> := [
    "Lancer cadence avis: 5 a 7 demandes/semaine.",
    "Repondre a 100% des avis.",
    "Publier 1 post GBP cette semaine.",
    "Ajouter 10 a 15 photos geolocalisees."]
  const AuthorityActions: seq<string> := [
    "Obtenir 2 a 3 backlinks locaux de qualite cette semaine.",
    "Publier 1 contenu blog local a intention commerciale.",
    "Ajouter liens internes vers pages locales/services."]
  const ExtensionActions: seq<string> := [
    "Creer 1 nouvelle page locale sur une zone rentable.",
    "Creer 1 page saisonniere locale.",
    "Optimiser title/meta des pages qui ont CTR faible dans GSC."]
  const ConversionActions: seq<string> := [
    "Renforcer CTA locaux (appel, WhatsApp, reserver).",
    "Tester une variation du hero local.",
    "Ajouter preuve sociale locale (avis, cas clients, photos)."]
  const ConsolidationActions: seq<string> := [
    "Reaudit complet GSC + GBP.",
    "Fusionner/supprimer pages faibles.",
    "Definir plan trimestriel suivant."]
  const MonthlyActions: seq<string> := [
    "Publier 1 contenu local cette semaine (objectif 4/mois).",
    "Publier 1 post GBP cette semaine (objectif 4/mois).",
    "Demander 2 a 3 avis cette semaine (objectif 8 a 12/mois).",
    "Chercher 1 backlink local de qualite cette semaine (objectif 3 a 5/mois).",
    "Executer mini sprint technique (indexation/perf/schema)."]

  /** "Semaine {week} - {theme}". */
  function WeekTitle(week: int, theme: string): string
  {
    "Semaine " + IntToString(week) + " - " + theme
  }

  /** `_week_actions`: the plan for a week. Every integer is accepted. */
  function WeekActions(week: int): (p: Plan)
    ensures 3 <= |p.actions| <= 5
  {
    if week <= 1 then Plan(WeekTitle(1, "Fondations"), Week1Actions)
    else if week == 2 then Plan(WeekTitle(2, "Quick wins techniques"), Week2Actions)
    else if week == 3 then Plan(WeekTitle(3, "Contenu local transactionnel"), Week3Actions)
    else if week == 4 then Plan(WeekTitle(4, "Acceleration GBP"), Week4Actions)
    else if week == 5 || week == 6 then Plan(WeekTitle(week, "Autorite locale"), AuthorityActions)
    else if week == 7 || week == 8 then Plan(WeekTitle(week, "Extension geographique"), ExtensionActions)
    else if week == 9 || week == 10 then Plan(WeekTitle(week, "Optimisation conversion"), ConversionActions)
    else if week == 11 || week == 12 then Plan(WeekTitle(week, "Consolidation"), ConsolidationActions)
    else Plan(WeekTitle(week, "Rythme mensuel standard"), MonthlyActions)
  }

  /** Every week, including 0 and negative ones, gets a title that starts with
      "Semaine {n} - ", n being the week clamped to at least 1, and 3 to 5
      actions. */
  lemma WeekActionsTotal(week: int)
    ensures var n := if week <= 1 then 1 else week;
      StartsWith(WeekActions(week).title, "Semaine " + IntToString(n) + " - ")
    ensures 3 <= |WeekActions(week).actions| <= 5
  {
    var n := if week <= 1 then 1 else week;
    var p := "Semaine " + IntToString(n) + " - ";
    var theme := if week <= 1 then "Fondations" else if week == 2 then "Quick wins techniques"
      else if week == 3 then "Contenu local transactionnel" else if week == 4 then "Acceleration GBP"
      else if week <= 6 then "Autorite locale" else if week <= 8 then "Extension geographique"
      else if week <= 10 then "Optimisation conversion" else if week <= 12 then "Consolidation"
      else "Rythme mensuel standard";
    assert WeekActions(week).title == p + theme;
    assert (p + theme)[..|p|] == p;
  }

  /** Any week <= 1 folds into week 1's content, four actions. */
  lemma WeekOneForAllLow(week: int)
    requires week <= 1
    ensures WeekActions(week) == Plan(WeekTitle(1, "Fondations"), Week1Actions)
    ensures |WeekActions(week).actions| == 4
  {
  }

  /** Weeks 1 to 4 each have their own title and their own four actions. */
  lemma SingleWeeksDistinct(a: int, b: int)
    requires 1 <= a < b <= 4
    ensures WeekActions(a).title != WeekActions(b).title
    ensures WeekActions(a).actions != WeekActions(b).actions
    ensures |WeekActions(a).actions| == 4 && |WeekActions(b).actions| == 4
  {
    assert WeekActions(a).actions[0] != WeekActions(b).actions[0];
    assert IntToString(a) == [DigitChar(a)] && IntToString(b) == [DigitChar(b)];
    assert WeekActions(a).title[8] == DigitChar(a);
    assert WeekActions(b).title[8] == DigitChar(b);
  }

  /** The two weeks of a pair share the same three actions, and their titles
      differ only by the week number they embed. */
  lemma PairWeeksShare(first: int)
    requires first == 5 || first == 7 || first == 9 || first == 11
    ensures WeekActions(first).actions == WeekActions(first + 1).actions
    ensures |WeekActions(first).actions| == 3
    ensures exists theme: string ::
      WeekActions(first).title == WeekTitle(first, theme)
      && WeekActions(first + 1).title == WeekTitle(first + 1, theme)
  {
    if first == 5 {
      PairShares(first, "Autorite locale");
    } else if first == 7 {
      PairShares(first, "Extension geographique");
    } else if first == 9 {
      PairShares(first, "Optimisation conversion");
    } else {
      PairShares(first, "Consolidation");
    }
  }

  lemma PairShares(first: int, theme: string)
    requires WeekActions(first).title == WeekTitle(first, theme)
    requires WeekActions(first + 1).title == WeekTitle(first + 1, theme)
    ensures exists theme: string ::
      WeekActions(first).title == WeekTitle(first, theme)
      && WeekActions(first + 1).title == WeekTitle(first + 1, theme)
  {
  }

  /** From week 13 on, the standard monthly rhythm with five actions. */
  lemma FallbackWeek(week: int)
    requires week >= 13
    ensures WeekActions(week).title == "Semaine " + IntToString(week) + " - Rythme mensuel standard"
    ensures WeekActions(week).actions == MonthlyActions && |MonthlyActions| == 5
  {
    assert WeekActions(week).title == WeekTitle(week, "Rythme mensuel standard");
    AppendAssociative("Semaine " + IntToString(week), " - ", "Rythme mensuel standard");
    MonthlyThemeSplit();
  }

  /** Proof helper, not part of the model: the literal split in two. */
  lemma MonthlyThemeSplit()
    ensures " - " + "Rythme mensuel standard" == " - Rythme mensuel standard"
  {
  }

  // =====================================================================
  // Week calculator

  predicate IsLeapYear(y: int)
  {
    y % 4 == 0 && (y % 100 != 0 || y % 400 == 0)
  }

  function DaysBeforeMonth(y: int, m: int): int
    requires 1 <= m <= 12
  {
    var table := [0, 31, 59, 90, 120, 151, 181, 212, 243, 273, 304, 334];
    table[m - 1] + (if m > 2 && IsLeapYear(y) then 1 else 0)
  }

  /** Day number of a calendar date, as Python's `date.toordinal`. */
  function DayNumber(y: int, m: int, d: int): int
    requires 1 <= m <= 12
  {
    var py := y - 1;
    py * 365 + py / 4 - py / 100 + py / 400 + DaysBeforeMonth(y, m) + d
  }

  /** PLAN_START_DATE, 2026-02-25. */
  const PlanStart: int := DayNumber(2026, 2, 25)

  lemma PlanStartIsOrdinal()
    ensures PlanStart == 739672
  {
  }

  /** `_calc_week`: one more than the elapsed whole weeks since the plan
      start, and 1 for any day before it. */
  function CalcWeek(today: int): (week: int)
    ensures week >= 1
  {
    var deltaDays := today - PlanStart;
    if deltaDays < 0 then 1 else deltaDays / 7 + 1
  }

  lemma DivBySeven(delta: int, q: int)
    requires 7 * q <= delta < 7 * q + 7
    ensures delta / 7 == q
  {
    assert delta == 7 * (delta / 7) + delta % 7;
  }

  /** Week k >= 2 is exactly the seven days starting 7(k-1) days after the
      plan start; week 1 is every day before the eighth. */
  lemma CalcWeekRange(today: int, k: int)
    requires k >= 1
    ensures CalcWeek(today) == k <==>
      (if k == 1 then today < PlanStart + 7
       else PlanStart + 7 * (k - 1) <= today < PlanStart + 7 * k)
  {
    var delta := today - PlanStart;
    if delta >= 0 {
      assert delta == 7 * (delta / 7) + delta % 7;
      if k >= 2 && 7 * (k - 1) <= delta < 7 * k {
        DivBySeven(delta, k - 1);
      }
    }
  }

  lemma CalcWeekMonotone(d1: int, d2: int)
    requires d1 <= d2
    ensures CalcWeek(d1) <= CalcWeek(d2)
  {
    var a, b := d1 - PlanStart, d2 - PlanStart;
    assert a == 7 * (a / 7) + a % 7;
    assert b == 7 * (b / 7) + b % 7;
  }

  lemma CalcWeekSamples()
    ensures CalcWeek(PlanStart - 1) == 1
    ensures CalcWeek(PlanStart) == 1
    ensures CalcWeek(PlanStart + 7) == 2
    ensures CalcWeek(PlanStart + 13) == 2
    ensures CalcWeek(PlanStart + 14) == 3
  {
  }

  /** `--week`: used only when given and positive (0 is falsy), otherwise the
      week computed from today's date. */
  function ResolveWeek(weekOverride: Option<int>, today: int): (week: int)
    ensures week >= 1
    ensures weekOverride.Some? && weekOverride.value > 0 ==> week == weekOverride.value
    ensures (weekOverride.None? || weekOverride.value <= 0) ==> week == CalcWeek(today)
  {
    // `args.week and args.week > 0`: a positive value is also truthy
    if weekOverride.Some? && weekOverride.value > 0
    then weekOverride.value
    else CalcWeek(today)
  }

  // =====================================================================
  // Environment file loader

  /** One `KEY=VALUE` line after skipping. */
  datatype Entry = Entry(key: string, value: string)

  /** `.strip().strip("'").strip('"')`: all surrounding single quotes, then
      all surrounding double quotes -- not a matched-pair strip. */
  function UnquoteValue(v: string): string
  {
    Strip(Strip(StripPy(v), CharIs('\'')), CharIs('"'))
  }

  /** A line of the file: None when it is skipped (blank after stripping,
      a `#` comment, or no `=`); otherwise split at the first `=` with both
      sides stripped. The key may still be empty. */
  function ParseEnvLine(line: string): (r: Option<Entry>)
    ensures r.None? <==> (var raw := StripPy(line); raw == "" || raw[0] == '#' || '=' !in raw)
  {
    ParseStrippedLine(StripPy(line))
  }

  /** The rest of ParseEnvLine, on the stripped line. */
  function ParseStrippedLine(raw: string): (r: Option<Entry>)
    ensures r.None? <==> raw == "" || raw[0] == '#' || '=' !in raw
  {
    if raw == "" || raw[0] == '#' || '=' !in raw then None
    else
      var i := IndexOf(raw, '=').value;
      Some(Entry(StripPy(raw[..i]), UnquoteValue(raw[i + 1..])))
  }

  /** The lines of the file text (`splitlines`). */
  function EnvLines(text: string): seq<string>
  {
    SplitWhere(text, IsPyLineBreak)
  }

  /** The assignment a line makes: its entry, or None for a skipped line
      and for an empty key (`if key and ...`). */
  function Assignment(l: string): (r: Option<Entry>)
    ensures r.Some? ==> r.value.key != "" && ParseEnvLine(l) == r
  {
    match ParseEnvLine(l)
    case Some(e) => if e.key != "" then Some(e) else None
    case None => None
  }

  function Assignments(lines: seq<string>): (r: seq<Option<Entry>>)
    ensures |r| == |lines| && forall i :: 0 <= i < |lines| ==> r[i] == Assignment(lines[i])
  {
    seq(|lines|, i requires 0 <= i < |lines| => Assignment(lines[i]))
  }

  predicate Assigns(a: Option<Entry>, key: string)
  {
    a.Some? && a.value.key == key
  }

  /** Entry `j` is the earliest assignment of `key`. */
  predicate IsFirstAssignment(assigns: seq<Option<Entry>>, key: string, j: int)
  {
    0 <= j < |assigns| && Assigns(assigns[j], key)
    && forall i :: 0 <= i < j ==> !Assigns(assigns[i], key)
  }

  /** The keys the assignments set. */
  function FileKeys(assigns: seq<Option<Entry>>): set<string>
  {
    if assigns == [] then {}
    else
      var last := assigns[|assigns| - 1];
      FileKeys(assigns[..|assigns| - 1]) + (if last.Some? then {last.value.key} else {})
  }

  /** The value given to `key` by the FIRST assignment of it. */
  function FirstValue(assigns: seq<Option<Entry>>, key: string): Option<string>
  {
    if assigns == [] then None
    else match FirstValue(assigns[..|assigns| - 1], key)
      case Some(v) => Some(v)
      case None =>
        var last := assigns[|assigns| - 1];
        if Assigns(last, key) then Some(last.value.value) else None
  }

  lemma {:induction false} FileKeysFirstValue(assigns: seq<Option<Entry>>, key: string)
    ensures key in FileKeys(assigns) <==> FirstValue(assigns, key).Some?
  {
    if assigns != [] {
      FileKeysFirstValue(assigns[..|assigns| - 1], key);
    }
  }

  /** FirstValue against its direct reading: None iff nothing assigns the
      key, and otherwise the value of the earliest assignment. */
  lemma {:induction false} FirstValueIsFirst(assigns: seq<Option<Entry>>, key: string)
    ensures FirstValue(assigns, key).None? <==> forall i :: 0 <= i < |assigns| ==> !Assigns(assigns[i], key)
    ensures forall j :: IsFirstAssignment(assigns, key, j) ==> FirstValue(assigns, key) == Some(assigns[j].value.value)
  {
    if assigns != [] {
      var init := assigns[..|assigns| - 1];
      FirstValueIsFirst(init, key);
      assert forall i :: 0 <= i < |init| ==> init[i] == assigns[i];
    }
  }

  /** The environment after `_load_env_from_file`: the ambient entries
      unchanged, and every other key assigned in the file with its first
      value. */
  function LoadedEnvironment(environ: map<string, string>, file: Option<string>): map<string, string>
  {
    if file.None? then environ else Overlay(environ, Assignments(EnvLines(file.value)))
  }

  /** The ambient entries, plus each other assigned key with its first
      value. */
  function Overlay(environ: map<string, string>, assigns: seq<Option<Entry>>): map<string, string>
  {
    map k | k in environ.Keys + FileKeys(assigns) :: if k in environ then environ[k] else FirstValue(assigns, k).GetOr("")
  }

  /** The loop's invariant after the first `i` lines. */
  predicate LoadedUpTo(environ: map<string, string>, assigns: seq<Option<Entry>>, i: nat, env: map<string, string>)
    requires i <= |assigns|
  {
    && env.Keys == environ.Keys + FileKeys(assigns[..i])
    && (forall k :: k in environ ==> env[k] == environ[k])
    && (forall k :: k in env && k !in environ ==> FirstValue(assigns[..i], k) == Some(env[k]))
  }

  lemma LoadStep(environ: map<string, string>, assigns: seq<Option<Entry>>, i: nat, env: map<string, string>)
    requires i < |assigns| && LoadedUpTo(environ, assigns, i, env)
    ensures var a := assigns[i];
      LoadedUpTo(environ, assigns, i + 1,
        if a.Some? && a.value.key !in env then env[a.value.key := a.value.value] else env)
  {
    var a := assigns[i];
    var pre := assigns[..i + 1];
    assert pre[..i] == assigns[..i];
    assert pre[i] == a;
    var env' := if a.Some? && a.value.key !in env then env[a.value.key := a.value.value] else env;
    forall k | k in env' && k !in environ
      ensures FirstValue(pre, k) == Some(env'[k])
    {
      if k in env {
        assert FirstValue(assigns[..i], k) == Some(env[k]);
      } else {
        FileKeysFirstValue(assigns[..i], k);
      }
    }
  }

  lemma LoadDone(environ: map<string, string>, assigns: seq<Option<Entry>>, env: map<string, string>)
    requires LoadedUpTo(environ, assigns, |assigns|, env)
    ensures env == Overlay(environ, assigns)
  {
    assert assigns[..|assigns|] == assigns;
    var loaded := Overlay(environ, assigns);
    assert env.Keys == loaded.Keys;
    forall k | k in env
      ensures env[k] == loaded[k]
    {
      if k !in environ {
        assert FirstValue(assigns, k) == Some(env[k]);
      }
    }
  }

  /** `_load_env_from_file`: a missing file is a no-op; each line may set
      one environment variable, never one already present. */
  method LoadEnvFromFile(environ: map<string, string>, file: Option<string>) returns (env: map<string, string>)
    ensures env == LoadedEnvironment(environ, file)
  {
    if file.None? {
      return environ;
    }
    var lines := EnvLines(file.value);
    ghost var assigns := Assignments(lines);
    env := environ;
    var i := 0;
    while i < |lines|
      invariant 0 <= i <= |lines|
      invariant LoadedUpTo(environ, assigns, i, env)
    {
      LoadStep(environ, assigns, i, env);
      var entry := ParseEnvLine(lines[i]);
      if entry.Some? {
        var key, value := entry.value.key, entry.value.value;
        if key != "" && key !in env {
          env := env[key := value];
        }
      }
      i := i + 1;
    }
    LoadDone(environ, assigns, env);
  }

  /** The file never overrides the ambient environment. */
  lemma LoadNeverOverrides(environ: map<string, string>, file: Option<string>, k: string)
    requires k in environ
    ensures k in LoadedEnvironment(environ, file)
    ensures LoadedEnvironment(environ, file)[k] == environ[k]
  {
  }

  /** A key the ambient environment lacks is set iff some line assigns it,
      and then to the value of the earliest such line; the empty key is
      never set (every assignment has a non-empty key, AssignedKeysNonEmpty). */
  lemma AssignedKeysNonEmpty(lines: seq<string>)
    ensures var assigns := Assignments(lines);
      forall i :: 0 <= i < |assigns| && assigns[i].Some? ==> assigns[i].value.key != ""
  {
  }

  lemma OverlayAt(environ: map<string, string>, assigns: seq<Option<Entry>>, k: string)
    requires k !in environ
    requires forall i :: 0 <= i < |assigns| && assigns[i].Some? ==> assigns[i].value.key != ""
    ensures var env := Overlay(environ, assigns);
      (k in env <==> exists i :: 0 <= i < |assigns| && Assigns(assigns[i], k))
      && (forall j :: IsFirstAssignment(assigns, k, j) ==> env[k] == assigns[j].value.value)
      && ("" !in environ ==> "" !in env)
  {
    FileKeysFirstValue(assigns, k);
    FirstValueIsFirst(assigns, k);
    FileKeysFirstValue(assigns, "");
    FirstValueIsFirst(assigns, "");
  }

  /** Index of the first `=` of a line whose key part has none. */
  lemma FirstEqualsAfterKey(k: string, v: string)
    requires '=' !in k
    ensures IndexOf(k + "=" + v, '=') == Some(|k|)
  {
    var line := k + "=" + v;
    assert line[|k|] == '=';
    assert forall i :: 0 <= i < |k| ==> line[i] == k[i];
  }

  /** A line "KEY=VALUE" with a clean key (no `=`, not a comment, no
      surrounding whitespace) and a value without surrounding whitespace is
      split at its first `=`: the value keeps any further `=`. */
  lemma ParseEnvLineSplitsAtFirstEquals(k: string, v: string)
    requires k != [] && '=' !in k && k[0] != '#'
    requires !IsPySpace(k[0]) && !IsPySpace(k[|k| - 1])
    requires v != [] ==> !IsPySpace(v[|v| - 1])
    ensures ParseEnvLine(k + "=" + v) == Some(Entry(k, UnquoteValue(v)))
  {
    var line := k + "=" + v;
    assert line[0] == k[0];
    assert line[|line| - 1] == if v == [] then '=' else v[|v| - 1];
    StripOfClean(line, IsPySpace);
    ParseStrippedSplitsAtFirstEquals(k, v);
  }

  lemma ParseStrippedSplitsAtFirstEquals(k: string, v: string)
    requires k != [] && '=' !in k && k[0] != '#'
    requires !IsPySpace(k[0]) && !IsPySpace(k[|k| - 1])
    ensures ParseStrippedLine(k + "=" + v) == Some(Entry(k, UnquoteValue(v)))
  {
    var line := k + "=" + v;
    assert line[0] == k[0] && line[|k|] == '=';
    FirstEqualsAfterKey(k, v);
    assert line[..|k|] == k && line[|k| + 1..] == v;
    StripOfClean(k, IsPySpace);
  }

  /** A value with no surrounding whitespace and no quote at its ends. */
  predicate CleanValue(x: string)
  {
    x != [] && !IsPySpace(x[0]) && !IsPySpace(x[|x| - 1])
    && x[0] != '\'' && x[0] != '"' && x[|x| - 1] != '\'' && x[|x| - 1] != '"'
  }

  /** Single quotes around a value are removed. */
  lemma SingleQuotesRemoved(x: string)
    requires CleanValue(x)
    ensures UnquoteValue("'" + x + "'") == x
  {
    var s1 := "'" + x + "'";
    StripOfClean(s1, IsPySpace);
    StripWrapped("'", x, "'", CharIs('\''));
    StripOfClean(x, CharIs('"'));
  }

  /** Double quotes around a value are removed. */
  lemma DoubleQuotesRemoved(x: string)
    requires CleanValue(x)
    ensures UnquoteValue("\"" + x + "\"") == x
  {
    var s2 := "\"" + x + "\"";
    StripOfClean(s2, IsPySpace);
    StripOfClean(s2, CharIs('\''));
    StripWrapped("\"", x, "\"", CharIs('"'));
  }

  /** Quotes are stripped class by class, not as a matched pair: a single
      quote in front and a double quote behind are both removed ... */
  lemma MismatchedQuotesRemoved(x: string)
    requires CleanValue(x)
    ensures UnquoteValue("'" + x + "\"") == x
  {
    var s3 := "'" + x + "\"";
    StripOfClean(s3, IsPySpace);
    assert "'" + (x + "\"") + "" == s3;
    StripWrapped("'", x + "\"", "", CharIs('\''));
    assert "" + x + "\"" == x + "\"";
    StripWrapped("", x, "\"", CharIs('"'));
  }

  /** ... while single quotes inside double quotes are kept, since the
      single quotes are stripped first. */
  lemma NestedQuotesKept(x: string)
    requires CleanValue(x)
    ensures UnquoteValue("\"'" + x + "'\"") == "'" + x + "'"
  {
    var y := "'" + x + "'";
    var s4 := "\"" + y + "\"";
    assert "\"'" + x + "'\"" == s4;
    StripOfClean(s4, IsPySpace);
    StripOfClean(s4, CharIs('\''));
    StripWrapped("\"", y, "\"", CharIs('"'));
  }

  // =====================================================================
  // Body formatter

  const KpiLines: seq<string> := [
    "- Clics, impressions, CTR, position (GSC)",
    "- Vues profil, appels, itineraire, clics site (GBP)",
    "- Conversions locales (appel/WhatsApp/reservation)"]

  /** "{i}. {action}" for each action, i counted from 1. */
  function NumberedActions(actions: seq<string>): (r: seq<string>)
    ensures |r| == |actions|
  {
    seq(|actions|, i requires 0 <= i < |actions| => IntToString(i + 1) + ". " + actions[i])
  }

  function BodyHeader(weekNumber: int, title: string): seq<string>
  {
    ["Bonjour Sebastien,", "",
     "Voici le plan SEO a executer pour la semaine " + IntToString(weekNumber) + ".",
     "Theme: " + title, "", "Actions prioritaires:"]
  }

  function BodyFooter(planPath: string): seq<string>
  {
    ["", "Rappels KPI a suivre cette semaine:"] + KpiLines
    + ["", "Reference complete du plan: " + planPath, "", "Cordialement,", "Assistant SEO"]
  }

  /** The lines of the body, before joining. */
  function BodyLines(weekNumber: int, title: string, actions: seq<string>, planPath: string): seq<string>
  {
    BodyHeader(weekNumber, title) + NumberedActions(actions) + BodyFooter(planPath)
  }

  /** The body text: the lines joined by "\n", no trailing newline. */
  function EmailBody(weekNumber: int, title: string, actions: seq<string>, planPath: string): (body: string)
    ensures StartsWith(body, "Bonjour Sebastien,\n")
  {
    var lines := BodyLines(weekNumber, title, actions, planPath);
    assert lines == [lines[0]] + lines[1..];
    JoinCons(lines[0], lines[1..], "\n");
    Join(lines, "\n")
  }

  /** `_build_email_body`. */
  method BuildEmailBody(weekNumber: int, title: string, actions: seq<string>, planPath: string) returns (body: string)
    ensures body == EmailBody(weekNumber, title, actions, planPath)
  {
    var lines := BodyHeader(weekNumber, title);
    var i := 0;
    while i < |actions|
      invariant 0 <= i <= |actions|
      invariant lines == BodyHeader(weekNumber, title) + NumberedActions(actions)[..i]
    {
      assert NumberedActions(actions)[..i + 1] == NumberedActions(actions)[..i] + [IntToString(i + 1) + ". " + actions[i]];
      lines := lines + [IntToString(i + 1) + ". " + actions[i]];
      i := i + 1;
    }
    assert NumberedActions(actions)[..i] == NumberedActions(actions);
    lines := lines + BodyFooter(planPath);
    body := Join(lines, "\n");
  }

  /** 16 + n lines; line 3 names the week, line 4 the title; action i is
      "{i}. {action}"; the KPI block and the reference line follow. */
  lemma BodyShape(weekNumber: int, title: string, actions: seq<string>, planPath: string)
    ensures var lines := BodyLines(weekNumber, title, actions, planPath);
      && |lines| == 16 + |actions|
      && lines[2] == "Voici le plan SEO a executer pour la semaine " + IntToString(weekNumber) + "."
      && lines[3] == "Theme: " + title
      && (forall i :: 0 <= i < |actions| ==> lines[6 + i] == IntToString(i + 1) + ". " + actions[i])
      && lines[6 + |actions| + 2..6 + |actions| + 5] == KpiLines
      && lines[6 + |actions| + 6] == "Reference complete du plan: " + planPath
      && lines[|lines| - 1] == "Assistant SEO"
  {
    var lines := BodyLines(weekNumber, title, actions, planPath);
    var n := |actions|;
    var h, m, f := BodyHeader(weekNumber, title), NumberedActions(actions), BodyFooter(planPath);
    HeaderShape(weekNumber, title);
    assert lines == h + m + f;
    assert lines[2] == h[2] && lines[3] == h[3];
    assert forall i :: 0 <= i < n ==> lines[6 + i] == m[i];
    assert lines[6 + n..] == f;
    FooterShape(planPath);
    assert lines[6 + n + 2..6 + n + 5] == f[2..5];
  }

  /** The header: six lines, the week third and the title fourth. */
  lemma HeaderShape(weekNumber: int, title: string)
    ensures var h := BodyHeader(weekNumber, title);
      |h| == 6 && h[2] == "Voici le plan SEO a executer pour la semaine " + IntToString(weekNumber) + "."
      && h[3] == "Theme: " + title
  {
  }

  /** The footer: ten lines, the KPI block third to fifth. */
  lemma FooterShape(planPath: string)
    ensures var f := BodyFooter(planPath);
      |f| == 10 && f[2..5] == KpiLines && f[6] == "Reference complete du plan: " + planPath
      && f[9] == "Assistant SEO"
  {
  }

  /** Splitting the body at "\n" gives back its lines when no title, action
      or path holds a newline; in particular the body has no trailing
      newline. */
  lemma BodySplitsIntoLines(weekNumber: int, title: string, actions: seq<string>, planPath: string)
    requires '\n' !in title && '\n' !in planPath
    requires forall i :: 0 <= i < |actions| ==> '\n' !in actions[i]
    ensures Split(EmailBody(weekNumber, title, actions, planPath), '\n')
         == BodyLines(weekNumber, title, actions, planPath)
  {
    var lines := BodyLines(weekNumber, title, actions, planPath);
    forall i | 0 <= i < |lines| ensures '\n' !in lines[i] {
      var h := BodyHeader(weekNumber, title);
      var m := NumberedActions(actions);
      if i < 6 {
        assert lines[i] == h[i];
        HeaderHasNoNewline(weekNumber, title);
      } else if i < 6 + |m| {
        assert lines[i] == IntToString(i - 6 + 1) + ". " + actions[i - 6];
        NoNewlineInNumeral(i - 6 + 1);
      } else {
        assert lines[i] == BodyFooter(planPath)[i - 6 - |m|];
        FooterHasNoNewline(planPath);
      }
    }
    SplitJoin(lines, '\n');
  }

  lemma HeaderHasNoNewline(weekNumber: int, title: string)
    requires '\n' !in title
    ensures forall i :: 0 <= i < |BodyHeader(weekNumber, title)| ==> '\n' !in BodyHeader(weekNumber, title)[i]
  {
    NoNewlineInNumeral(weekNumber);
    assert '\n' !in "Bonjour Sebastien,";
    NoNewlineInWeekIntro();
    assert '\n' !in "Theme: ";
    assert '\n' !in "Actions prioritaires:";
  }

  lemma FooterHasNoNewline(planPath: string)
    requires '\n' !in planPath
    ensures forall i :: 0 <= i < |BodyFooter(planPath)| ==> '\n' !in BodyFooter(planPath)[i]
  {
    NoNewlineInKpiHeading();
    NoNewlineInKpiSearch();
    NoNewlineInKpiProfile();
    NoNewlineInKpiConversions();
    NoNewlineInReference();
    assert '\n' !in "Cordialement,";
    assert '\n' !in "Assistant SEO";
  }

  // Proof helpers, not part of the model: each long literal below is shown
  // newline-free by splitting it into two halves, which keeps every
  // obligation about string literals small.

  lemma NoNewlineInWeekIntro()
    ensures '\n' !in "Voici le plan SEO a executer pour la semaine "
  {
    WeekIntroHalves();
    NoNewlineConcat("Voici le plan SEO a exe", "cuter pour la semaine ");
  }

  lemma WeekIntroHalves()
    ensures "Voici le plan SEO a executer pour la semaine " == "Voici le plan SEO a exe" + "cuter pour la semaine "
    ensures '\n' !in "Voici le plan SEO a exe" && '\n' !in "cuter pour la semaine "
  {
    WeekIntroSplit();
  }

  lemma WeekIntroSplit()
    ensures "Voici le plan SEO a executer pour la semaine " == "Voici le plan SEO a exe" + "cuter pour la semaine "
  {
  }

  lemma NoNewlineInKpiHeading()
    ensures '\n' !in "Rappels KPI a suivre cette semaine:"
  {
    KpiHeadingHalves();
    NoNewlineConcat("Rappels KPI a suiv", "re cette semaine:");
  }

  lemma KpiHeadingHalves()
    ensures "Rappels KPI a suivre cette semaine:" == "Rappels KPI a suiv" + "re cette semaine:"
    ensures '\n' !in "Rappels KPI a suiv" && '\n' !in "re cette semaine:"
  {
    KpiHeadingSplit();
  }

  lemma KpiHeadingSplit()
    ensures "Rappels KPI a suivre cette semaine:" == "Rappels KPI a suiv" + "re cette semaine:"
  {
  }

  lemma NoNewlineInKpiSearch()
    ensures '\n' !in "- Clics, impressions, CTR, position (GSC)"
  {
    KpiSearchHalves();
    NoNewlineConcat("- Clics, impressions,", " CTR, position (GSC)");
  }

  lemma KpiSearchHalves()
    ensures "- Clics, impressions, CTR, position (GSC)" == "- Clics, impressions," + " CTR, position (GSC)"
    ensures '\n' !in "- Clics, impressions," && '\n' !in " CTR, position (GSC)"
  {
    KpiSearchSplit();
  }

  lemma KpiSearchSplit()
    ensures "- Clics, impressions, CTR, position (GSC)" == "- Clics, impressions," + " CTR, position (GSC)"
  {
  }

  lemma NoNewlineInKpiProfile()
    ensures '\n' !in "- Vues profil, appels, itineraire, clics site (GBP)"
  {
    KpiProfileHalves();
    NoNewlineConcat("- Vues profil, appels, iti", "neraire, clics site (GBP)");
  }

  lemma KpiProfileHalves()
    ensures "- Vues profil, appels, itineraire, clics site (GBP)" == "- Vues profil, appels, iti" + "neraire, clics site (GBP)"
    ensures '\n' !in "- Vues profil, appels, iti" && '\n' !in "neraire, clics site (GBP)"
  {
    KpiProfileSplit();
  }

  lemma KpiProfileSplit()
    ensures "- Vues profil, appels, itineraire, clics site (GBP)" == "- Vues profil, appels, iti" + "neraire, clics site (GBP)"
  {
  }

  lemma NoNewlineInKpiConversions()
    ensures '\n' !in "- Conversions locales (appel/WhatsApp/reservation)"
  {
    KpiConversionsHalves();
    NoNewlineConcat("- Conversions locales (ap", "pel/WhatsApp/reservation)");
  }

  lemma KpiConversionsHalves()
    ensures "- Conversions locales (appel/WhatsApp/reservation)" == "- Conversions locales (ap" + "pel/WhatsApp/reservation)"
    ensures '\n' !in "- Conversions locales (ap" && '\n' !in "pel/WhatsApp/reservation)"
  {
    KpiConversionsSplit();
  }

  lemma KpiConversionsSplit()
    ensures "- Conversions locales (appel/WhatsApp/reservation)" == "- Conversions locales (ap" + "pel/WhatsApp/reservation)"
  {
  }

  lemma NoNewlineInReference()
    ensures '\n' !in "Reference complete du plan: "
  {
    ReferenceHalves();
    NoNewlineConcat("Reference comp", "lete du plan: ");
  }

  lemma ReferenceHalves()
    ensures "Reference complete du plan: " == "Reference comp" + "lete du plan: "
    ensures '\n' !in "Reference comp" && '\n' !in "lete du plan: "
  {
    ReferenceSplit();
  }

  lemma ReferenceSplit()
    ensures "Reference complete du plan: " == "Reference comp" + "lete du plan: "
  {
  }

  lemma NoNewlineConcat(a: string, b: string)
    requires '\n' !in a && '\n' !in b
    ensures '\n' !in a + b
  {
  }

  lemma NoNewlineInNumeral(n: int)
    ensures '\n' !in IntToString(n)
  {
    var s := NatToString(if n < 0 then -n else n);
    assert forall i :: 0 <= i < |s| ==> s[i] != '\n';
  }

  // =====================================================================
  // Mail configuration

  datatype ConfigError =
    | MissingVariable(name: string)      // "Variable manquante: {name}"
    | InvalidPort(text: string)          // int() raised ValueError

  datatype MailConfig = MailConfig(host: string, port: int, user: string, password: string,
                                   sender: string, recipient: string, useTls: bool)

  const DefaultSubjectPrefix := "[Artimon Bike] Plan SEO hebdomadaire"

  /** `os.getenv(name, default)`. */
  function GetEnv(env: map<string, string>, name: string, default: string): string
  {
    Get(env, name).GetOr(default)
  }

  /** `_required_env`: the stripped value, an error naming the variable when
      it is unset or blank. */
  function RequiredEnv(env: map<string, string>, name: string): (r: Result<string, ConfigError>)
    ensures r.Ok? <==> name in env && StripPy(env[name]) != ""
    ensures r.Ok? ==> r.value == StripPy(env[name])
    ensures r.Err? ==> r.error == MissingVariable(name)
  {
    var value := StripPy(GetEnv(env, name, ""));
    if value == "" then Err(MissingVariable(name)) else Ok(value)
  }

  predicate IsPyIntBody(s: string)
  {
    && s != [] && IsDigit(s[0]) && IsDigit(s[|s| - 1])
    && (forall i :: 0 <= i < |s| ==> IsDigit(s[i]) || s[i] == '_')
    && (forall i :: 0 <= i < |s| - 1 ==> !(s[i] == '_' && s[i + 1] == '_'))
  }

  function DropUnderscores(s: string): (r: string)
    requires forall i :: 0 <= i < |s| ==> IsDigit(s[i]) || s[i] == '_'
    ensures AllDigits(r)
  {
    if s == [] then "" else (if s[0] == '_' then "" else [s[0]]) + DropUnderscores(s[1..])
  }

  /** Python `int(text)` in base 10: surrounding whitespace, an optional sign,
      ASCII digits with single underscores between them. */
  function ParsePyInt(text: string): (r: Option<int>)
  {
    ParseSigned(StripPy(text))
  }

  /** An optional sign and the digits of a stripped numeral. */
  function ParseSigned(s: string): (r: Option<int>)
  {
    var negative := s != [] && s[0] == '-';
    var body := if s != [] && (s[0] == '-' || s[0] == '+') then s[1..] else s;
    if !IsPyIntBody(body) then None
    else
      var magnitude: int := DigitsValue(DropUnderscores(body));
      Some(if negative then -magnitude else magnitude)
  }

  lemma DropUnderscoresOfDigits(s: string)
    requires AllDigits(s)
    ensures DropUnderscores(s) == s
  {
  }

  lemma DigitsArePyIntBody(digits: string)
    requires digits != [] && AllDigits(digits)
    ensures IsPyIntBody(digits) && DropUnderscores(digits) == digits
  {
    DropUnderscoresOfDigits(digits);
  }

  /** A numeral has no surrounding whitespace, whatever its sign. */
  lemma NumeralIsStripped(s: string)
    requires s != [] && (IsDigit(s[0]) || s[0] == '-') && IsDigit(s[|s| - 1])
    ensures ParsePyInt(s) == ParseSigned(s)
  {
    StripOfClean(s, IsPySpace);
  }

  lemma ParseSignedOfDigits(digits: string)
    requires digits != [] && AllDigits(digits)
    ensures ParseSigned(digits) == Some(DigitsValue(digits) as int)
  {
    DigitsArePyIntBody(digits);
  }

  lemma ParseSignedOfNegatedDigits(digits: string)
    requires digits != [] && AllDigits(digits)
    ensures ParseSigned("-" + digits) == Some(-(DigitsValue(digits) as int))
  {
    DigitsArePyIntBody(digits);
    NegatedBody(digits);
  }

  lemma NegatedBody(x: string)
    ensures var t := "-" + x; t != [] && t[0] == '-' && t[1..] == x
  {
  }

  /** A numeral of ASCII digits parses to its value. */
  lemma ParsePyIntOfDigits(digits: string)
    requires digits != [] && AllDigits(digits)
    ensures ParsePyInt(digits) == Some(DigitsValue(digits) as int)
  {
    assert IsDigit(digits[0]) && IsDigit(digits[|digits| - 1]);
    NumeralIsStripped(digits);
    ParseSignedOfDigits(digits);
  }

  /** A negated numeral of ASCII digits parses to minus its value. */
  lemma ParsePyIntOfNegatedDigits(digits: string)
    requires digits != [] && AllDigits(digits)
    ensures ParsePyInt("-" + digits) == Some(-(DigitsValue(digits) as int))
  {
    var s := "-" + digits;
    assert s[0] == '-' && s[|s| - 1] == digits[|digits| - 1];
    assert IsDigit(s[|s| - 1]);
    NumeralIsStripped(s);
    ParseSignedOfNegatedDigits(digits);
  }

  /** `int(str(n)) == n`. */
  lemma ParsePyIntOfIntToString(n: int)
    ensures ParsePyInt(IntToString(n)) == Some(n)
  {
    var m := if n < 0 then -n else n;
    DigitsValueOfNatToString(m);
    if n < 0 {
      ParsePyIntOfNegatedDigits(NatToString(m));
    } else {
      ParsePyIntOfDigits(NatToString(m));
    }
  }

  lemma DigitsValue587()
    ensures DigitsValue("587") == 587
  {
    assert "587"[..2] == "58" && "58"[..1] == "5" && "5"[..0] == "";
  }

  /** The default port text parses to 587. */
  lemma DefaultPortParses(d: string)
    requires d == "587"
    ensures ParsePyInt(d) == Some(587)
  {
    assert AllDigits(d);
    ParsePyIntOfDigits(d);
    DigitsValue587();
  }

  function ParsePort(text: string): (r: Result<int, ConfigError>)
    ensures r.Ok? <==> ParsePyInt(text).Some?
    ensures r.Ok? ==> r.value == ParsePyInt(text).value
    ensures r.Err? ==> r.error == InvalidPort(text)
  {
    match ParsePyInt(text)
    case Some(p) => Ok(p)
    case None => Err(InvalidPort(text))
  }

  /** `.lower() in {"1", "true", "yes"}`. ASCII lower-casing decides this
      membership exactly as Unicode lower-casing does. */
  predicate IsTruthy(value: string)
  {
    LowerAscii(value) in {"1", "true", "yes"}
  }

  /** The configuration part of `send_email`: host, then port (default 587),
      user, password, sender (default: the user), recipient, TLS flag
      (default on). The first failing step is the error. */
  function ResolveMailConfig(env: map<string, string>): (r: Result<MailConfig, ConfigError>)
    ensures r.Ok? ==> r.value.host != "" && r.value.user != "" && r.value.password != "" && r.value.recipient != ""
    ensures r.Err? ==> r.error.MissingVariable? || r.error == InvalidPort(GetEnv(env, "SEO_SMTP_PORT", "587"))
  {
    var host, port := RequiredEnv(env, "SEO_SMTP_HOST"), ParsePort(GetEnv(env, "SEO_SMTP_PORT", "587"));
    var user, password := RequiredEnv(env, "SEO_SMTP_USER"), RequiredEnv(env, "SEO_SMTP_PASSWORD");
    var from, recipient := Get(env, "SEO_MAIL_FROM"), RequiredEnv(env, "SEO_MAIL_TO");
    var useTls := IsTruthy(GetEnv(env, "SEO_SMTP_USE_TLS", "true"));
    FirstFailingStep(host, port, user, password, from, recipient, useTls);
    ResolveSteps(host, port, user, password, from, recipient, useTls)
  }

  /** The steps of the configuration in their order; the sender falls back
      to the user and is stripped. None of the steps has a side effect, so
      their results can be passed in. */
  function ResolveSteps(host: Result<string, ConfigError>, port: Result<int, ConfigError>,
                        user: Result<string, ConfigError>, password: Result<string, ConfigError>,
                        from: Option<string>, recipient: Result<string, ConfigError>,
                        useTls: bool): (r: Result<MailConfig, ConfigError>)
    ensures r.Ok? ==>
      && host.Ok? && user.Ok? && password.Ok? && recipient.Ok?
      && r.value.host == host.value && r.value.user == user.value
      && r.value.password == password.value && r.value.recipient == recipient.value
  {
    var h :- host;
    var p :- port;
    var u :- user;
    var pw :- password;
    var sender := StripPy(from.GetOr(u));
    var r :- recipient;
    Ok(MailConfig(h, p, u, pw, sender, r, useTls))
  }

  /** Unset, or only whitespace. */
  predicate IsBlank(env: map<string, string>, name: string)
  {
    name !in env || StripPy(env[name]) == ""
  }

  /** The configuration resolves iff the four required values are non-blank
      and the port parses; it then holds the stripped values and the
      documented defaults. */
  lemma MailConfigResolves(env: map<string, string>)
    ensures ResolveMailConfig(env).Ok? <==>
      !IsBlank(env, "SEO_SMTP_HOST") && !IsBlank(env, "SEO_SMTP_USER")
      && !IsBlank(env, "SEO_SMTP_PASSWORD") && !IsBlank(env, "SEO_MAIL_TO")
      && ParsePyInt(GetEnv(env, "SEO_SMTP_PORT", "587")).Some?
    ensures ResolveMailConfig(env).Ok? ==>
      var c := ResolveMailConfig(env).value;
      && c.host == StripPy(env["SEO_SMTP_HOST"]) && c.user == StripPy(env["SEO_SMTP_USER"])
      && c.password == StripPy(env["SEO_SMTP_PASSWORD"]) && c.recipient == StripPy(env["SEO_MAIL_TO"])
      && c.port == ParsePyInt(GetEnv(env, "SEO_SMTP_PORT", "587")).value
      && ("SEO_SMTP_PORT" !in env ==> c.port == 587)
      && ("SEO_MAIL_FROM" !in env ==> c.sender == c.user)
      && ("SEO_MAIL_FROM" in env ==> c.sender == StripPy(env["SEO_MAIL_FROM"]))
      && ("SEO_SMTP_USE_TLS" !in env ==> c.useTls)
  {
    var portText := GetEnv(env, "SEO_SMTP_PORT", "587");
    if "SEO_SMTP_PORT" !in env {
      DefaultPortParses(portText);
    }
    var tlsText := GetEnv(env, "SEO_SMTP_USE_TLS", "true");
    if "SEO_SMTP_USE_TLS" !in env {
      DefaultTlsIsOn(tlsText);
    }
    var user := RequiredEnv(env, "SEO_SMTP_USER");
    if user.Ok? {
      StripIdempotent(env["SEO_SMTP_USER"], IsPySpace);
    }
    var h, p := RequiredEnv(env, "SEO_SMTP_HOST"), ParsePort(portText);
    var pw, r := RequiredEnv(env, "SEO_SMTP_PASSWORD"), RequiredEnv(env, "SEO_MAIL_TO");
    var f, t := Get(env, "SEO_MAIL_FROM"), IsTruthy(tlsText);
    assert ResolveMailConfig(env) == ResolveSteps(h, p, user, pw, f, r, t);
  }

  /** The default TLS setting is on. */
  lemma DefaultTlsIsOn(d: string)
    requires d == "true"
    ensures IsTruthy(d)
  {
    LowerAsciiOfLower(d);
  }

  /** A missing-variable error names one of the four required variables,
      and that variable is blank. */
  lemma MissingVariableIsBlank(env: map<string, string>)
    requires ResolveMailConfig(env).Err? && ResolveMailConfig(env).error.MissingVariable?
    ensures var name := ResolveMailConfig(env).error.name;
      && (name == "SEO_SMTP_HOST" || name == "SEO_SMTP_USER" || name == "SEO_SMTP_PASSWORD" || name == "SEO_MAIL_TO")
      && IsBlank(env, name)
  {
    var h, p := RequiredEnv(env, "SEO_SMTP_HOST"), ParsePort(GetEnv(env, "SEO_SMTP_PORT", "587"));
    var u, pw := RequiredEnv(env, "SEO_SMTP_USER"), RequiredEnv(env, "SEO_SMTP_PASSWORD");
    var r := RequiredEnv(env, "SEO_MAIL_TO");
    var f, t := Get(env, "SEO_MAIL_FROM"), IsTruthy(GetEnv(env, "SEO_SMTP_USE_TLS", "true"));
    FirstFailingStep(h, p, u, pw, f, r, t);
  }

  /** A missing variable is reported only after every step before it (host,
      port, user, password, in this order) passed. */
  lemma MissingVariableIsFirst(env: map<string, string>)
    requires ResolveMailConfig(env).Err? && ResolveMailConfig(env).error.MissingVariable?
    ensures var name := ResolveMailConfig(env).error.name;
      && (name != "SEO_SMTP_HOST" ==> !IsBlank(env, "SEO_SMTP_HOST") && ParsePyInt(GetEnv(env, "SEO_SMTP_PORT", "587")).Some?)
      && (name == "SEO_SMTP_PASSWORD" || name == "SEO_MAIL_TO" ==> !IsBlank(env, "SEO_SMTP_USER"))
      && (name == "SEO_MAIL_TO" ==> !IsBlank(env, "SEO_SMTP_PASSWORD"))
  {
    var name := ResolveMailConfig(env).error.name;
    var h := RequiredEnv(env, "SEO_SMTP_HOST");
    var p := ParsePort(GetEnv(env, "SEO_SMTP_PORT", "587"));
    var u := RequiredEnv(env, "SEO_SMTP_USER");
    var pw := RequiredEnv(env, "SEO_SMTP_PASSWORD");
    if h.Err? {
      assert name == "SEO_SMTP_HOST";
    } else if p.Err? {
    } else if u.Err? {
      assert name == "SEO_SMTP_USER";
    } else if pw.Err? {
      assert name == "SEO_SMTP_PASSWORD";
    }
  }

  /** The configuration fails iff some step fails, with the error of the
      earliest failing step. */
  lemma FirstFailingStep(host: Result<string, ConfigError>, port: Result<int, ConfigError>,
                         user: Result<string, ConfigError>, password: Result<string, ConfigError>,
                         from: Option<string>, recipient: Result<string, ConfigError>, useTls: bool)
    ensures var r := ResolveSteps(host, port, user, password, from, recipient, useTls);
      && (r.Err? <==> host.Err? || port.Err? || user.Err? || password.Err? || recipient.Err?)
      && (r.Err? ==> r.error == (if host.Err? then host.error else if port.Err? then port.error
            else if user.Err? then user.error else if password.Err? then password.error
            else recipient.error))
  {
  }

  /** With none of the four set, the host is the one named. */
  lemma NothingSetNamesHost(env: map<string, string>)
    requires "SEO_SMTP_HOST" !in env
    ensures ResolveMailConfig(env) == Err(MissingVariable("SEO_SMTP_HOST"))
  {
  }

  /** The TLS flag ignores ASCII case. */
  lemma TlsCaseInsensitive(v: string)
    ensures IsTruthy(LowerAscii(v)) == IsTruthy(v)
  {
    LowerAsciiIsLower(v);
    LowerAsciiOfLower(LowerAscii(v));
  }

  // =====================================================================
  // Entry point

  datatype Args = Args(dryRun: bool, week: Option<int>)

  /** Where a run ends: printed (dry run), handed to the mail relay with its
      configuration, or stopped by a configuration error. */
  datatype Outcome =
    | Printed(subject: string, body: string)
    | Dispatch(config: MailConfig, subject: string, body: string)
    | Failed(error: ConfigError)

  /** "{prefix} - semaine {week}". */
  function Subject(prefix: string, week: int): (s: string)
    ensures StartsWith(s, prefix + " - semaine ")
    ensures ParsePyInt(s[|prefix| + 11..]) == Some(week)
  {
    var n := IntToString(week);
    var s := prefix + " - semaine " + n;
    assert s[|prefix| + 11..] == n by {
      assert s == (prefix + " - semaine ") + n;
      assert |prefix + " - semaine "| == |prefix| + 11;
    }
    ParsePyIntOfIntToString(week);
    s
  }

  /** `main` without the printing and the SMTP session: load the file into
      the environment, resolve the week, build subject and body, and either
      print them or resolve the mail configuration for sending. */
  method RunWeekly(args: Args, today: int, environ: map<string, string>, envFile: Option<string>, planPath: string)
    returns (out: Outcome)
    ensures var env := LoadedEnvironment(environ, envFile);
      var week := ResolveWeek(args.week, today);
      var plan := WeekActions(week);
      var subject := Subject(GetEnv(env, "SEO_MAIL_SUBJECT_PREFIX", DefaultSubjectPrefix), week);
      var body := EmailBody(week, plan.title, plan.actions, planPath);
      && (args.dryRun ==> out == Printed(subject, body))
      && (!args.dryRun ==> match ResolveMailConfig(env)
            case Ok(c) => out == Dispatch(c, subject, body)
            case Err(e) => out == Failed(e))
  {
    var env := LoadEnvFromFile(environ, envFile);
    var week := ResolveWeek(args.week, today);
    var plan := WeekActions(week);
    var subject := Subject(GetEnv(env, "SEO_MAIL_SUBJECT_PREFIX", DefaultSubjectPrefix), week);
    var body := BuildEmailBody(week, plan.title, plan.actions, planPath);
    if args.dryRun {
      return Printed(subject, body);
    }
    match ResolveMailConfig(env) {
      case Ok(c) => out := Dispatch(c, subject, body);
      case Err(e) => out := Failed(e);
    }
  }

}
