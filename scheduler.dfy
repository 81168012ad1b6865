/**
 * The schedule service of the web front end: one job slot named
 * 'blog_generator' in the background scheduler, and the schedule file that
 * remembers the configuration across restarts.
 */
module ScheduleService {
  import opened Wrappers
  import opened Json

  /** The trigger a job is registered with. Cron fields keep the JSON values they were given. */
  datatype Trigger =
    | Interval(hours: int)
    | Cron(dayOfWeek: JsonValue, hour: JsonValue, minute: JsonValue)

  /** The schedule file: missing, present but not readable as JSON, or holding a JSON value. */
  datatype ScheduleFile = Absent | Unreadable | Holds(data: JsonValue)

  /** `{'enabled': False, 'schedule': {}}`. */
  const DefaultSchedule: JsonValue := JObject(map["enabled" := JBool(false), "schedule" := JObject(map[])])

  /** load_schedule: the file's JSON value; the default when it is missing or unreadable. */
  function LoadedSchedule(file: ScheduleFile): (data: JsonValue)
    ensures file.Holds? ==> data == file.data
    ensures !file.Holds? ==> data == DefaultSchedule && !Truthy(data.fields["enabled"])
  {
    match file
    case Holds(data) => data
    case _ => DefaultSchedule
  }

  /** What set_schedule leaves behind when it does not raise: the job slot and the saved configuration. */
  datatype Applied = Applied(job: Option<Trigger>, saved: JsonValue)

  /**
   * set_schedule after the old job is gone: None when it raises (a body that
   * is not an object, or an `int()` that fails). `enabled` is stored as sent.
   */
  function ApplySchedule(body: JsonValue): (r: Option<Applied>)
    ensures r.Some? ==> body.JObject? && r.value.saved.JObject?
    ensures r.Some? ==> var saved := r.value.saved.fields;
                        && saved.Keys == {"enabled", "schedule"}
                        && saved["enabled"] == Get(body.fields, "enabled", JBool(false))
                        && saved["schedule"].JObject?
  {
    if !body.JObject? then None
    else
      var m := body.fields;
      var enabled := Get(m, "enabled", JBool(false));
      if !Truthy(enabled) then
        Some(Applied(None, JObject(map["enabled" := enabled, "schedule" := JObject(map[])])))
      else
        var kind := Get(m, "type", JString("interval"));
        if kind == JString("interval") then
          match IntOf(Get(m, "hours", JInt(24)))
          case None => None
          case Some(hours) =>
            Some(Applied(Some(Interval(hours)),
                         JObject(map["enabled" := enabled, "schedule" := JObject(map["type" := kind, "hours" := JInt(hours)])])))
        else if kind == JString("cron") then
          var dayOfWeek := Get(m, "day_of_week", JString("*"));
          match IntOf(Get(m, "hour", JInt(0)))
          case None => None
          case Some(hour) =>
            match IntOf(Get(m, "minute", JInt(0)))
            case None => None
            case Some(minute) =>
              Some(Applied(Some(Cron(dayOfWeek, JInt(hour), JInt(minute))),
                           JObject(map["enabled" := enabled,
                                       "schedule" := JObject(map["type" := kind, "day_of_week" := dayOfWeek,
                                                                 "hour" := JInt(hour), "minute" := JInt(minute)])])))
        else
          Some(Applied(None, JObject(map["enabled" := enabled, "schedule" := JObject(map["type" := kind])])))
  }

  /**
   * init_scheduler: the job a saved configuration registers. None when it
   * raises: a value that is not an object, a missing 'enabled' or 'schedule'
   * key, a schedule that is not an object, or `int(hours)` failing. Cron
   * fields are passed on as they were saved, without int().
   */
  function RestoredJob(data: JsonValue): (r: Option<Option<Trigger>>)
    ensures r == Some(None) <== data.JObject? && "enabled" in data.fields && !Truthy(data.fields["enabled"])
    ensures r.Some? && r.value.Some? ==> data.JObject? && "enabled" in data.fields && Truthy(data.fields["enabled"])
  {
    if !data.JObject? || "enabled" !in data.fields then None
    else if !Truthy(data.fields["enabled"]) then Some(None)
    else if "schedule" !in data.fields || !data.fields["schedule"].JObject? then None
    else
      var schedule := data.fields["schedule"].fields;
      var kind := Get(schedule, "type", JNull);
      if kind == JString("interval") then
        match IntOf(Get(schedule, "hours", JInt(24)))
        case None => None
        case Some(hours) => Some(Some(Interval(hours)))
      else if kind == JString("cron") then
        Some(Some(Cron(Get(schedule, "day_of_week", JString("*")), Get(schedule, "hour", JInt(0)), Get(schedule, "minute", JInt(0)))))
      else Some(None)
  }

  // ---- Properties of set_schedule and init_scheduler ----

  /** A falsy `enabled` (or none) saves an empty schedule and leaves no job. */
  lemma DisabledLeavesNoJob(body: JsonValue)
    requires body.JObject? && !Truthy(Get(body.fields, "enabled", JBool(false)))
    ensures ApplySchedule(body).Some?
    ensures ApplySchedule(body).value.job.None?
    ensures ApplySchedule(body).value.saved.fields["schedule"] == JObject(map[])
  {
  }

  /** An interval schedule (the default type) stores and uses int(hours), 24 when absent. */
  lemma IntervalSchedule(body: JsonValue)
    requires body.JObject? && Truthy(Get(body.fields, "enabled", JBool(false)))
    requires "type" !in body.fields || body.fields["type"] == JString("interval")
    ensures var hours := IntOf(Get(body.fields, "hours", JInt(24)));
            && ("hours" !in body.fields ==> hours == Some(24))
            && (ApplySchedule(body).Some? <==> hours.Some?)
            && (hours.Some? ==>
                  && ApplySchedule(body).value.job == Some(Interval(hours.value))
                  && ApplySchedule(body).value.saved.fields["schedule"]
                     == JObject(map["type" := JString("interval"), "hours" := JInt(hours.value)]))
  {
  }

  /** A cron schedule stores and uses day_of_week as sent ('*' when absent) and int(hour), int(minute), 0 when absent. */
  lemma CronSchedule(body: JsonValue)
    requires body.JObject? && Truthy(Get(body.fields, "enabled", JBool(false)))
    requires "type" in body.fields && body.fields["type"] == JString("cron")
    ensures var m := body.fields;
            var hour := IntOf(Get(m, "hour", JInt(0)));
            var minute := IntOf(Get(m, "minute", JInt(0)));
            && (ApplySchedule(body).Some? <==> hour.Some? && minute.Some?)
            && (hour.Some? && minute.Some? ==>
                  && ApplySchedule(body).value.job == Some(Cron(Get(m, "day_of_week", JString("*")), JInt(hour.value), JInt(minute.value)))
                  && ApplySchedule(body).value.saved.fields["schedule"]
                     == JObject(map["type" := JString("cron"), "day_of_week" := Get(m, "day_of_week", JString("*")),
                                    "hour" := JInt(hour.value), "minute" := JInt(minute.value)]))
  {
  }

  /** Any other type stores only the type and registers nothing. */
  lemma OtherTypeLeavesNoJob(body: JsonValue)
    requires body.JObject? && Truthy(Get(body.fields, "enabled", JBool(false)))
    requires "type" in body.fields && body.fields["type"] != JString("interval") && body.fields["type"] != JString("cron")
    ensures ApplySchedule(body) == Some(Applied(None, JObject(map["enabled" := body.fields["enabled"],
                                                            "schedule" := JObject(map["type" := body.fields["type"]])])))
  {
  }

  /** A value that int() rejects, such as a float string "1.5", makes set_schedule raise. */
  lemma PointHoursRaise(body: JsonValue)
    requires body.JObject? && Truthy(Get(body.fields, "enabled", JBool(false)))
    requires "type" !in body.fields
    requires "hours" in body.fields && body.fields["hours"].JString? && '.' in body.fields["hours"].s
    ensures ApplySchedule(body) == None
  {
    Numerals.PointRejected(body.fields["hours"].s);
  }

  /**
   * What set_schedule saved brings the same job back when the service restarts
   * and init_scheduler reads the file.
   */
  lemma RestartRestoresJob(body: JsonValue)
    requires ApplySchedule(body).Some?
    ensures RestoredJob(ApplySchedule(body).value.saved) == Some(ApplySchedule(body).value.job)
  {
    var a := ApplySchedule(body).value;
    var m := body.fields;
    var enabled := Get(m, "enabled", JBool(false));
    if Truthy(enabled) {
      var kind := Get(m, "type", JString("interval"));
      var schedule := a.saved.fields["schedule"].fields;
      assert Get(schedule, "type", JNull) == kind;
      if kind == JString("interval") {
        var hours := IntOf(Get(m, "hours", JInt(24))).value;
        assert Get(schedule, "hours", JInt(24)) == JInt(hours);
      }
    }
  }

  /** A service started without a schedule file, or with one it cannot read, registers no job. */
  lemma NoFileNoJob(file: ScheduleFile)
    requires !file.Holds?
    ensures RestoredJob(LoadedSchedule(file)) == Some(None)
  {
  }

  // ---- The service state ----

  class Scheduler {
    /** The 'blog_generator' job, if one is registered. */
    var job: Option<Trigger>
    /** The schedule file on disk. */
    var file: ScheduleFile

    /** A freshly started background scheduler has no job; the file is whatever is on disk. */
    constructor (onDisk: ScheduleFile)
      ensures job.None? && file == onDisk
    {
      job := None;
      file := onDisk;
    }

    /** load_schedule, and the GET route that returns it. */
    method LoadSchedule() returns (data: JsonValue)
      ensures data == LoadedSchedule(file)
    {
      if file.Holds? {
        data := file.data;
      } else {
        data := DefaultSchedule;
      }
    }

    /** save_schedule: a failed write is logged and swallowed, leaving the file as it was. */
    method SaveSchedule(data: JsonValue, writeSucceeds: bool)
      modifies this`file
      ensures file == (if writeSucceeds then Holds(data) else old(file))
    {
      if writeSucceeds {
        file := Holds(data);
      }
    }

    /** init_scheduler, run once at start-up; `raised` reports the exception that aborts the start. */
    method InitScheduler() returns (raised: bool)
      modifies this`job
      ensures raised <==> RestoredJob(LoadedSchedule(file)).None?
      ensures raised ==> job == old(job)
      ensures !raised ==> (RestoredJob(LoadedSchedule(file)).value.Some? ==> job == RestoredJob(LoadedSchedule(file)).value)
      ensures !raised && RestoredJob(LoadedSchedule(file)).value.None? ==> job == old(job)
    {
      var data := LoadSchedule();
      var restored := RestoredJob(data);
      if restored.None? {
        return true;
      }
      if restored.value.Some? {
        job := restored.value;
      }
      return false;
    }

    /**
     * set_schedule: the job is removed first; then the body is read field by
     * field, the new job registered, and the configuration saved. On an
     * exception the slot stays empty and the file is not touched.
     */
    method SetSchedule(body: JsonValue, writeSucceeds: bool) returns (response: Flow<JsonValue>)
      modifies this
      ensures ApplySchedule(body).None? ==> response.Raised? && job.None? && file == old(file)
      ensures ApplySchedule(body).Some? ==>
                var a := ApplySchedule(body).value;
                && job == a.job
                && file == (if writeSucceeds then Holds(a.saved) else old(file))
                && response == Done(JObject(map["status" := JString("success"), "schedule" := a.saved]))
    {
      job := None;
      if !body.JObject? {
        return Raised;
      }
      var data := body.fields;
      var enabled := Get(data, "enabled", JBool(false));
      var schedule: map<string, JsonValue> := map[];
      if Truthy(enabled) {
        var scheduleType := Get(data, "type", JString("interval"));
        schedule := schedule["type" := scheduleType];
        if scheduleType == JString("interval") {
          var hours := IntOf(Get(data, "hours", JInt(24)));
          if hours.None? {
            return Raised;
          }
          schedule := schedule["hours" := JInt(hours.value)];
          job := Some(Interval(hours.value));
        } else if scheduleType == JString("cron") {
          var dayOfWeek := Get(data, "day_of_week", JString("*"));
          var hour := IntOf(Get(data, "hour", JInt(0)));
          if hour.None? {
            return Raised;
          }
          var minute := IntOf(Get(data, "minute", JInt(0)));
          if minute.None? {
            return Raised;
          }
          schedule := schedule["day_of_week" := dayOfWeek]["hour" := JInt(hour.value)]["minute" := JInt(minute.value)];
          job := Some(Cron(dayOfWeek, JInt(hour.value), JInt(minute.value)));
        }
      }
      var scheduleData := JObject(map["enabled" := enabled, "schedule" := JObject(schedule)]);
      SaveSchedule(scheduleData, writeSucceeds);
      response := Done(JObject(map["status" := JString("success"), "schedule" := scheduleData]));
    }
  }

  /**
   * A schedule set through the web form survives a restart: a new service
   * started on the saved file registers the same job.
   */
  method SetThenRestart(body: JsonValue) returns (before: Option<Trigger>, after: Option<Trigger>, raised: bool)
    ensures ApplySchedule(body).Some? ==> !raised && before == after == ApplySchedule(body).value.job
  {
    var service := new Scheduler(Absent);
    var response := service.SetSchedule(body, true);
    before := service.job;
    var restarted := new Scheduler(service.file);
    raised := restarted.InitScheduler();
    after := restarted.job;
    if ApplySchedule(body).Some? {
      RestartRestoresJob(body);
    }
  }
}
