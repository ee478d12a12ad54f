/** CrashpadTuner: its setters, init and the proxies. */
module Tuner {
  import opened Integers
  import opened Options
  import opened TunerSpec

  method ConvertProxies(inputProxies: seq<ProxyRecord>) returns (outputList: seq<Proxy>)
    ensures outputList == Converted(inputProxies)
  {
    outputList := [];
    for i := 0 to |inputProxies|
      invariant outputList == Converted(inputProxies[..i])
    {
      var inputProxy := inputProxies[i];
      assert inputProxies[..i + 1] == inputProxies[..i] + [inputProxy];
      ConvertedSnoc(inputProxies[..i], inputProxy);
      var proxyType := ProxyNone;
      match inputProxy.proxyType {
        case SOCKS => proxyType := ProxySOCKS5;
        case HTTPS => proxyType := ProxyHTTPS;
        case HTTP => proxyType := ProxyHTTP;
        case NoType => proxyType := ProxyHTTP;
        case FTP => continue;
        case Unknown(_) => continue;
      }
      if inputProxy.port > 0xffff {
        continue;
      }
      outputList := outputList + [Proxy(inputProxy.url, inputProxy.port, proxyType, AuthNone, "", "")];
    }
    assert inputProxies[..|inputProxies|] == inputProxies;
  }

  class CrashpadTuner {
    var bRunning: bool
    var bUploadEnabled: bool
    var uploadUrl: string
    var nPruneDays: int
    var databasePruneSize: nat
    var proxy: Proxy
    var pDatabase: Option<Settings>

    ghost function View(): Fields
      reads this
    {
      Fields(bRunning, bUploadEnabled, uploadUrl, nPruneDays, databasePruneSize, proxy, pDatabase)
    }

    constructor ()
      ensures View() == FRESH
    {
      bRunning, bUploadEnabled := false, true;
      uploadUrl, nPruneDays, databasePruneSize := CRASHPAD_URL, PRUNE_DAYS, DATABASE_DEFAULT_PRUNE_SIZE_KB;
      proxy, pDatabase := EMPTY_PROXY, None;
    }

    method SetUploadEnabled(bVal: bool)
      modifies this
      ensures View() == TunerSpec.SetUploadEnabled(old(View()), bVal)
    {
      bUploadEnabled := bVal;
      if !bRunning || pDatabase.None? {
        return;
      }
      var settings := pDatabase.value;
      if settings.uploadsEnabled == bVal {
        return;
      }
      pDatabase := Some(settings.(uploadsEnabled := bVal));
    }

    method SetUploadUrl(strUrl: string)
      modifies this
      ensures View() == TunerSpec.SetUploadUrl(old(View()), strUrl)
    {
      uploadUrl := strUrl;
      if !bRunning || pDatabase.None? {
        return;
      }
      var settings := pDatabase.value;
      if settings.uploadUrl == strUrl {
        return;
      }
      pDatabase := Some(settings.(uploadUrl := strUrl));
    }

    method SetPruneAge(nDays: UInt32)
      modifies this
      ensures View() == TunerSpec.SetPruneAge(old(View()), nDays)
    {
      if nDays > INT_MAX {
        return;
      }
      nPruneDays := nDays;
      if !bRunning || pDatabase.None? {
        return;
      }
      var settings := pDatabase.value;
      if settings.pruneAge == nPruneDays {
        return;
      }
      pDatabase := Some(settings.(pruneAge := nPruneDays));
    }

    method SetPruneDatabaseSize(nSize: nat)
      modifies this
      ensures View() == TunerSpec.SetPruneDatabaseSize(old(View()), nSize)
    {
      databasePruneSize := nSize;
      if !bRunning || pDatabase.None? {
        return;
      }
      var settings := pDatabase.value;
      if settings.pruneDatabaseSize == nSize {
        return;
      }
      pDatabase := Some(settings.(pruneDatabaseSize := nSize));
    }

    method Init(outcome: InitOutcome)
      modifies this
      ensures View() == TunerSpec.Init(old(View()), outcome)
    {
      match outcome {
        case NoHandlerFile => return;
        case NoReportDirectory => return;
        case NoDatabase => pDatabase := None;
        case HandlerFails(found) =>
          pDatabase := Some(found);
          SetupSettings();
        case HandlerRuns(found) =>
          pDatabase := Some(found);
          SetupSettings();
          bRunning := true;
      }
    }

    method SetupSettings()
      requires pDatabase.Some?
      modifies this`pDatabase
      ensures View() == TunerSpec.SetupSettings(old(View()), old(pDatabase.value))
    {
      var settings := pDatabase.value;
      settings := settings.(uploadsEnabled := bUploadEnabled);
      settings := settings.(uploadUrl := uploadUrl);
      settings := settings.(pruneAge := nPruneDays);
      settings := settings.(pruneDatabaseSize := databasePruneSize);
      pDatabase := Some(settings);
      var _ := SetProxySettings(proxy);
    }

    method SetProxySettings(p: Proxy) returns (ok: bool)
      modifies this`pDatabase
      ensures ok <==> old(pDatabase).Some?
      ensures pDatabase == match old(pDatabase)
        case None => None
        case Some(s) => Some(s.(proxy := WriteProxy(s.proxy, p)))
    {
      if pDatabase.None? {
        return false;
      }
      var stored := pDatabase.value.proxy;
      stored := stored.(kind := p.kind);
      if p.kind.ProxyNone? {
        pDatabase := Some(pDatabase.value.(proxy := stored));
        return true;
      }
      stored := stored.(host := p.host);
      stored := stored.(port := p.port);
      stored := stored.(auth := p.auth);
      if p.auth.AuthNone? {
        pDatabase := Some(pDatabase.value.(proxy := stored));
        return true;
      }
      stored := stored.(username := p.username);
      stored := stored.(password := p.password);
      pDatabase := Some(pDatabase.value.(proxy := stored));
      return true;
    }

    method GetProxy() returns (p: Proxy)
      ensures p == TunerSpec.GetProxy(View())
    {
      if pDatabase.None? {
        return proxy;
      }
      return pDatabase.value.proxy;
    }

    method SetProxy(p: Proxy) returns (accepted: bool)
      modifies this
      ensures accepted <==> IsProxyValid(p)
      ensures View() == TunerSpec.SetProxy(old(View()), p)
    {
      if !IsProxyValid(p) {
        return false;
      }
      if pDatabase.None? {
        proxy := p;
        return true;
      }
      var currentProxy := GetProxy();
      if currentProxy == p {
        return true;
      }
      accepted := SetProxySettings(p);
    }

    method UpdateProxyList(proxies: seq<ProxyRecord>, guid: string)
      modifies this
      ensures View() == TunerSpec.UpdateProxyList(old(View()), proxies, guid)
    {
      if guid != "" {
        return;
      }
      var httpProxies := ConvertProxies(proxies);
      if httpProxies == [] {
        var _ := SetProxy(EMPTY_PROXY);
        return;
      }
      var remaining := httpProxies;
      while remaining != []
        invariant View() == old(View()) && FirstValid(remaining) == FirstValid(httpProxies)
        decreases |remaining|
      {
        var accepted := SetProxy(remaining[0]);
        if accepted {
          break;
        }
        remaining := remaining[1..];
      }
    }
  }
}
