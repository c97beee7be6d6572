/** The settings object of the realtime profiler panel: display settings and
    their derived step count, the enabled metrics, the two graph colours, and
    the change listeners it notifies. Calls to the host (`postMessage`) and to
    listeners are recorded in ghost logs. */
module RealtimeSettings {
  import opened Sequences
  import opened Metrics

  /** The display settings snapshot (`ISettings`). */
  datatype SettingsValue = SettingsValue(pollInterval: int, viewDuration: int, zoomLevel: int, easing: bool)

  /** The settings the panel starts with. */
  const DefaultValue := SettingsValue(1000, 30_000, 0, true)

  /** A message posted to the extension host. */
  datatype Message = SetEnabledMetrics(keys: seq<int>)

  /** A change listener; only its identity matters. */
  type Listener(==)

  /** What `onChange` hands back: calling it unsubscribes `listener` from the
      settings object `owner` that issued it. */
  datatype Unsubscribe = Unsubscribe(owner: Settings, listener: Listener)

  class Settings {
    const allMetrics: seq<Metric>
    /** The step derivation the panel imports; a parameter here. */
    const getSteps: SettingsValue -> int
    const primaryGraph: string
    const secondaryGraph: string

    var changeListeners: seq<Listener>
    var value: SettingsValue
    var enabledMetrics: seq<Metric>
    var steps: int

    /** Every message posted to the host, oldest first. */
    ghost var posted: seq<Message>
    /** Every listener invocation, oldest first. */
    ghost var invoked: seq<Listener>

    constructor (catalog: seq<Metric>, defaultEnabled: seq<int>, getSteps: SettingsValue -> int,
                 primaryGraph: string, secondaryGraph: string)
      requires |catalog| > 0 && Distinct(catalog)
      ensures allMetrics == catalog && this.getSteps == getSteps
      ensures this.primaryGraph == primaryGraph && this.secondaryGraph == secondaryGraph
      ensures enabledMetrics == InitialEnabled(catalog, defaultEnabled)
      ensures value == DefaultValue && steps == getSteps(DefaultValue)
      ensures changeListeners == [] && posted == [] && invoked == []
    {
      allMetrics := catalog;
      this.getSteps := getSteps;
      this.primaryGraph := primaryGraph;
      this.secondaryGraph := secondaryGraph;
      changeListeners := [];
      value := DefaultValue;
      enabledMetrics := InitialEnabled(catalog, defaultEnabled);
      steps := 0;
      posted := [];
      invoked := [];
      new;
      Update(value);
    }

    /** The primary colour for the first enabled metric, the secondary one for
        every other metric. */
    method MetricColor(m: Metric) returns (c: string)
      ensures |enabledMetrics| > 0 && m == enabledMetrics[0] ==> c == primaryGraph
      ensures !(|enabledMetrics| > 0 && m == enabledMetrics[0]) ==> c == secondaryGraph
    {
      if |enabledMetrics| > 0 && m == enabledMetrics[0] {
        c := primaryGraph;
      } else {
        c := secondaryGraph;
      }
    }

    /** Registers `listener` at the end of the listener list. */
    method OnChange(listener: Listener) returns (u: Unsubscribe)
      modifies this`changeListeners
      ensures changeListeners == old(changeListeners) + [listener]
      ensures u.owner == this && u.listener == listener
    {
      changeListeners := changeListeners + [listener];
      u := Unsubscribe(this, listener);
    }

    /** Runs an unsubscribe capability: every registration of its listener is
        dropped, the others keep their order. */
    method RunUnsubscribe(u: Unsubscribe)
      requires u.owner == this
      modifies this`changeListeners
      ensures changeListeners == Without(old(changeListeners), u.listener)
      ensures u.listener !in changeListeners
    {
      changeListeners := Without(changeListeners, u.listener);
    }

    /** Turns `m` off if it is enabled, on (at the end) otherwise; posts the
        new list's catalog indices to the host, then notifies the listeners. */
    method ToggleMetric(m: Metric)
      modifies this`enabledMetrics, this`posted, this`invoked
      ensures enabledMetrics == Toggle(old(enabledMetrics), m)
      ensures posted == old(posted) + [SetEnabledMetrics(Keys(allMetrics, enabledMetrics))]
      ensures invoked == old(invoked) + changeListeners
    {
      if m in enabledMetrics {
        enabledMetrics := Without(enabledMetrics, m);
      } else {
        enabledMetrics := enabledMetrics + [m];
      }
      posted := posted + [SetEnabledMetrics(Keys(allMetrics, enabledMetrics))];
      FireChange();
    }

    /** Replaces the settings, recomputes the step count, notifies. */
    method Update(newValue: SettingsValue)
      modifies this`value, this`steps, this`invoked
      ensures value == newValue && steps == getSteps(newValue)
      ensures invoked == old(invoked) + changeListeners
    {
      value := newValue;
      steps := getSteps(newValue);
      FireChange();
    }

    /** Calls every registered listener once, in registration order. */
    method FireChange()
      modifies this`invoked
      ensures invoked == old(invoked) + changeListeners
    {
      for i := 0 to |changeListeners|
        invariant invoked == old(invoked) + changeListeners[..i]
      {
        invoked := invoked + [changeListeners[i]];
      }
    }
  }
}
